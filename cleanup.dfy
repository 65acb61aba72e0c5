/** What `cleanup_duplicates` decides and does (bucket/rss_manager.py:344-478):
    the per-source scan that flags duplicates, the removal of the flagged
    rows, and the report. */
module Cleanup {
  import opened Text
  import opened Models
  import opened Seqs
  import opened Store
  import opened Dedup

  /** The scan's memory within one source: `seen_urls`, `seen_titles` (the
      normalised title mapped to the article that last claimed it) and the
      keys of `seen_content_hashes`. */
  datatype ScanState = ScanState(urls: set<string>, titles: map<string, Article>, hashes: set<HexDigest>)

  const EmptyScan := ScanState({}, map[], {})

  /** Some title already seen is similar to `key`, and its article was
      published within 24 hours of `a`. */
  predicate TitleClash(titles: map<string, Article>, key: string, a: Article) {
    exists t :: t in titles && TitlesSimilar(key, t) && DatesClose(a.publishedDate, titles[t].publishedDate)
  }

  /** One article of the scan: the state afterwards, and whether it was
      flagged (by URL, else by title, else by content hash). */
  function ScanStep(md5: string -> HexDigest, sc: ScanState, a: Article): (ScanState, bool) {
    var urlDup := a.url in sc.urls;
    var key := Normalize(a.title);
    var titleDup := !urlDup && a.title != [] && TitleClash(sc.titles, key, a);
    var titles := if !urlDup && a.title != [] && !titleDup then sc.titles[key := a] else sc.titles;
    var h := ContentHash(md5, a.content);
    var hashDup := !urlDup && !titleDup && h.Some? && h.value in sc.hashes;
    var hashes := if !urlDup && !titleDup && h.Some? && !hashDup then sc.hashes + {h.value} else sc.hashes;
    (ScanState(sc.urls + {a.url}, titles, hashes), urlDup || titleDup || hashDup)
  }

  /** The scan over one source's list: one flag per article. */
  function ScanFlags(md5: string -> HexDigest, sc: ScanState, s: seq<Article>): (flags: seq<bool>)
    ensures |flags| == |s|
    decreases |s|
  {
    if s == [] then [] else [ScanStep(md5, sc, s[0]).1] + ScanFlags(md5, ScanStep(md5, sc, s[0]).0, s[1..])
  }

  /** The scan unfolded at its first article. */
  lemma ScanFlagsCons(md5: string -> HexDigest, sc: ScanState, s: seq<Article>)
    requires s != []
    ensures ScanFlags(md5, sc, s)[0] == ScanStep(md5, sc, s[0]).1
    ensures ScanFlags(md5, sc, s)[1..] == ScanFlags(md5, ScanStep(md5, sc, s[0]).0, s[1..])
    ensures forall k :: 0 < k < |s| ==> ScanFlags(md5, sc, s)[k] == ScanFlags(md5, ScanStep(md5, sc, s[0]).0, s[1..])[k - 1]
  {
  }

  /** The URL is always remembered, and a remembered URL is always flagged. */
  lemma ScanStepUrls(md5: string -> HexDigest, sc: ScanState, a: Article)
    ensures ScanStep(md5, sc, a).0.urls == sc.urls + {a.url}
    ensures a.url in sc.urls ==> ScanStep(md5, sc, a).1
  {
  }

  /** The articles whose flag is set, in order. */
  function Flagged(s: seq<Article>, flags: seq<bool>): (r: seq<Article>)
    requires |flags| == |s|
    ensures |r| == CountTrue(flags)
  {
    if s == [] then [] else (if flags[0] then [s[0]] else []) + Flagged(s[1..], flags[1..])
  }

  /** The flagged articles unfolded at the first article of the list. */
  lemma FlaggedStep(md5: string -> HexDigest, sc: ScanState, s: seq<Article>)
    requires s != []
    ensures var (sc', d) := ScanStep(md5, sc, s[0]);
      Flagged(s, ScanFlags(md5, sc, s)) == (if d then [s[0]] else []) + Flagged(s[1..], ScanFlags(md5, sc', s[1..]))
  {
    ScanFlagsCons(md5, sc, s);
  }

  /** One source's list as scanned: newest first, ties in query order. */
  function SourceGroup(recent: seq<Article>, k: string): seq<Article> {
    SortDesc(WithKey(recent, SourceKey, k), CreatedKey)
  }

  /** The duplicates found in one source. */
  function GroupDups(md5: string -> HexDigest, recent: seq<Article>, k: string): seq<Article> {
    var g := SourceGroup(recent, k);
    Flagged(g, ScanFlags(md5, EmptyScan, g))
  }

  /** The duplicates found in the sources `ks`, in the order they are met. */
  function DupsOver(md5: string -> HexDigest, recent: seq<Article>, ks: seq<string>): seq<Article> {
    if ks == [] then []
    else DupsOver(md5, recent, ks[..|ks| - 1]) + GroupDups(md5, recent, ks[|ks| - 1])
  }

  /** `get_articles_since(now - days_back days, limit=1000)`. */
  function CleanupRecent(st: StoreState, daysBack: int, now: int): seq<Article> {
    ArticlesSince(st.articles, now - daysBack * 86400, 1000)
  }

  /** The rows left and the count of successful removals after removing
      each article of `ds` in turn by its id (a missing id, or one no longer
      stored, removes nothing). */
  function RemoveAll(arts: seq<Article>, ds: seq<Article>): (seq<Article>, nat) {
    if ds == [] then (arts, 0)
    else
      var prev := RemoveAll(arts, ds[..|ds| - 1]);
      var d := ds[|ds| - 1];
      if HasId(prev.0, d.id) then (WithoutId(prev.0, d.id.value), prev.1 + 1) else prev
  }

  /** The returned dict: on success the counts and, when there were recent
      articles, `sources_checked`; `CleanupFailed` when the query raises. */
  datatype CleanupReport =
    | Cleaned(totalArticles: nat, duplicatesFound: nat, duplicatesRemoved: nat, sourcesChecked: Option<nat>)
    | CleanupFailed

  /** The cleanup with a working removal: the store afterwards and the report. */
  function CleanupOf(md5: string -> HexDigest, st: StoreState, daysBack: int, now: int, readFails: bool)
    : (StoreState, CleanupReport)
  {
    if readFails then (st, CleanupFailed)
    else
      var recent := CleanupRecent(st, daysBack, now);
      if recent == [] then (st, Cleaned(0, 0, 0, None))
      else
        var ks := Keys(recent, SourceKey);
        var dups := DupsOver(md5, recent, ks);
        var (rest, removed) := RemoveAll(st.articles, dups);
        (st.(articles := rest), Cleaned(|recent|, |dups|, removed, Some(|ks|)))
  }

  /** The cleanup as written: the removal always reports failure (see
      `RemoveArticleAsWritten`), so nothing is removed. */
  function CleanupAsWrittenOf(md5: string -> HexDigest, st: StoreState, daysBack: int, now: int, readFails: bool)
    : (StoreState, CleanupReport)
  {
    if readFails then (st, CleanupFailed)
    else
      var recent := CleanupRecent(st, daysBack, now);
      if recent == [] then (st, Cleaned(0, 0, 0, None))
      else
        var ks := Keys(recent, SourceKey);
        (st, Cleaned(|recent|, |DupsOver(md5, recent, ks)|, 0, Some(|ks|)))
  }

  // ---------------------------------------------------------------------
  // Properties of the scan.

  /** The first article of every source is kept. */
  lemma FirstOfSourceKept(md5: string -> HexDigest, g: seq<Article>)
    requires g != []
    ensures !ScanFlags(md5, EmptyScan, g)[0]
  {
  }

  /** An article whose URL is already seen, or was met earlier in the list,
      is flagged. */
  lemma {:induction false} RepeatedUrlFlagged(md5: string -> HexDigest, sc: ScanState, s: seq<Article>, i: nat, j: nat)
    requires i < j < |s| && s[i].url == s[j].url
    ensures ScanFlags(md5, sc, s)[j]
    decreases j
  {
    var sc' := ScanStep(md5, sc, s[0]).0;
    ScanFlagsCons(md5, sc, s);
    if i == 0 {
      ScanStepUrls(md5, sc, s[0]);
      UrlSeenFlagged(md5, sc', s[1..], j - 1);
    } else {
      RepeatedUrlFlagged(md5, sc', s[1..], i - 1, j - 1);
    }
  }

  lemma {:induction false} UrlSeenFlagged(md5: string -> HexDigest, sc: ScanState, s: seq<Article>, j: nat)
    requires j < |s| && s[j].url in sc.urls
    ensures ScanFlags(md5, sc, s)[j]
    decreases j
  {
    ScanFlagsCons(md5, sc, s);
    ScanStepUrls(md5, sc, s[0]);
    if j > 0 {
      var sc' := ScanStep(md5, sc, s[0]).0;
      UrlSeenFlagged(md5, sc', s[1..], j - 1);
    }
  }

  /** `a` repeats `b`: same URL, or a similar title (with both titles
      non-empty) and published dates within 24 hours, or the same content
      hash. */
  predicate Repeats(md5: string -> HexDigest, a: Article, b: Article) {
    a.url == b.url
    || (a.title != [] && b.title != [] && TitlesSimilar(Normalize(a.title), Normalize(b.title))
        && DatesClose(a.publishedDate, b.publishedDate))
    || (ContentHash(md5, a.content).Some? && ContentHash(md5, a.content) == ContentHash(md5, b.content))
  }

  /** What the scan state remembers comes from the articles `seen`. */
  predicate ScanFrom(md5: string -> HexDigest, sc: ScanState, seen: seq<Article>) {
    (forall u | u in sc.urls :: exists i :: 0 <= i < |seen| && seen[i].url == u)
    && (forall t | t in sc.titles :: sc.titles[t] in seen && sc.titles[t].title != [] && t == Normalize(sc.titles[t].title))
    && (forall h | h in sc.hashes :: exists i :: 0 <= i < |seen| && ContentHash(md5, seen[i].content) == Some(h))
  }

  lemma ScanStepFrom(md5: string -> HexDigest, sc: ScanState, seen: seq<Article>, a: Article)
    requires ScanFrom(md5, sc, seen)
    ensures ScanFrom(md5, ScanStep(md5, sc, a).0, seen + [a])
    ensures ScanStep(md5, sc, a).1 ==> exists i :: 0 <= i < |seen| && Repeats(md5, a, seen[i])
  {
    var big := seen + [a];
    var sc' := ScanStep(md5, sc, a).0;
    assert big[|seen|] == a;
    forall u | u in sc'.urls ensures exists i :: 0 <= i < |big| && big[i].url == u {
      if u in sc.urls {
        var i :| 0 <= i < |seen| && seen[i].url == u;
        assert big[i] == seen[i];
      }
    }
    forall h | h in sc'.hashes ensures exists i :: 0 <= i < |big| && ContentHash(md5, big[i].content) == Some(h) {
      if h in sc.hashes {
        var i :| 0 <= i < |seen| && ContentHash(md5, seen[i].content) == Some(h);
        assert big[i] == seen[i];
      }
    }
    if ScanStep(md5, sc, a).1 {
      if a.url in sc.urls {
        var i :| 0 <= i < |seen| && seen[i].url == a.url;
        assert Repeats(md5, a, seen[i]);
      } else if a.title != [] && TitleClash(sc.titles, Normalize(a.title), a) {
        var t :| t in sc.titles && TitlesSimilar(Normalize(a.title), t)
                 && DatesClose(a.publishedDate, sc.titles[t].publishedDate);
        var b := sc.titles[t];
        var i :| 0 <= i < |seen| && seen[i] == b;
        assert Repeats(md5, a, seen[i]);
      } else {
        var h := ContentHash(md5, a.content);
        var i :| 0 <= i < |seen| && ContentHash(md5, seen[i].content) == Some(h.value);
        assert Repeats(md5, a, seen[i]);
      }
    }
  }

  /** Every flagged article repeats an article met before it. */
  lemma {:induction false} FlaggedRepeatsEarlier(md5: string -> HexDigest, sc: ScanState, seen: seq<Article>,
                                                 s: seq<Article>, j: nat)
    requires ScanFrom(md5, sc, seen)
    requires j < |s| && ScanFlags(md5, sc, s)[j]
    ensures (exists i :: 0 <= i < |seen| && Repeats(md5, s[j], seen[i]))
         || (exists i :: 0 <= i < j && Repeats(md5, s[j], s[i]))
    decreases j
  {
    ScanStepFrom(md5, sc, seen, s[0]);
    ScanFlagsCons(md5, sc, s);
    if j > 0 {
      var sc' := ScanStep(md5, sc, s[0]).0;
      assert ScanFlags(md5, sc, s)[j] == ScanFlags(md5, sc', s[1..])[j - 1];
      FlaggedRepeatsEarlier(md5, sc', seen + [s[0]], s[1..], j - 1);
      var big := seen + [s[0]];
      if exists i :: 0 <= i < |big| && Repeats(md5, s[j], big[i]) {
        var i :| 0 <= i < |big| && Repeats(md5, s[j], big[i]);
        if i < |seen| {
          assert big[i] == seen[i];
        } else {
          assert big[i] == s[0];
        }
      } else {
        var i :| 0 <= i < j - 1 && Repeats(md5, s[j], s[1..][i]);
        assert s[1..][i] == s[i + 1];
      }
    }
  }

  /** Within a source, every flagged article repeats an earlier one that is
      at least as new: the newest copy is the one kept. */
  lemma FlaggedHasNewerOriginal(md5: string -> HexDigest, recent: seq<Article>, k: string, j: nat)
    requires j < |SourceGroup(recent, k)| && ScanFlags(md5, EmptyScan, SourceGroup(recent, k))[j]
    ensures var g := SourceGroup(recent, k);
      exists i :: 0 <= i < j && Repeats(md5, g[j], g[i]) && g[i].createdAt >= g[j].createdAt
  {
    var g := SourceGroup(recent, k);
    FlaggedRepeatsEarlier(md5, EmptyScan, [], g, j);
    SortDescSortedPermutation(WithKey(recent, SourceKey, k), CreatedKey);
    var i :| 0 <= i < j && Repeats(md5, g[j], g[i]);
    assert KeyLe(CreatedKey(g[j]), CreatedKey(g[i]));
  }

  // ---------------------------------------------------------------------
  // Properties of the report and of the removal.

  lemma {:induction false} FlaggedWithin(s: seq<Article>, flags: seq<bool>)
    requires |flags| == |s|
    ensures forall a :: a in Flagged(s, flags) ==> a in s
  {
    if s != [] {
      FlaggedWithin(s[1..], flags[1..]);
    }
  }

  lemma {:induction false} DupsOverSize(md5: string -> HexDigest, recent: seq<Article>, ks: seq<string>)
    ensures |DupsOver(md5, recent, ks)| <= GroupSizes(ks, recent, SourceKey)
  {
    if ks != [] {
      DupsOverSize(md5, recent, ks[..|ks| - 1]);
      SortDescSortedPermutation(WithKey(recent, SourceKey, ks[|ks| - 1]), CreatedKey);
    }
  }

  /** Every duplicate found is a recent article of one of the sources checked. */
  lemma {:induction false} DupsOverWithin(md5: string -> HexDigest, recent: seq<Article>, ks: seq<string>)
    ensures forall a :: a in DupsOver(md5, recent, ks) ==> a in recent && SourceKey(a) in ks
  {
    if ks != [] {
      var init := ks[..|ks| - 1];
      var k := ks[|ks| - 1];
      DupsOverWithin(md5, recent, init);
      var w := WithKey(recent, SourceKey, k);
      var g := SourceGroup(recent, k);
      FlaggedWithin(g, ScanFlags(md5, EmptyScan, g));
      SortDescSortedPermutation(w, CreatedKey);
      WithKeyMembers(recent, SourceKey, k);
      forall a | a in GroupDups(md5, recent, k) ensures a in recent && SourceKey(a) in ks {
        assert a in multiset(g);
      }
    }
  }

  /** The counts: the report exists unless the read raised; it counts the
      recent articles, the duplicates found and the distinct sources (the
      groups of `articles_by_source`, each source's name or "Unknown"); there
      are no more duplicates than articles, no more removals than
      duplicates, and no more sources than articles. */
  lemma CleanupCounts(md5: string -> HexDigest, st: StoreState, daysBack: int, now: int, readFails: bool)
    ensures CleanupOf(md5, st, daysBack, now, readFails).1.Cleaned? <==> !readFails
    ensures var r := CleanupOf(md5, st, daysBack, now, readFails).1;
      var recent := CleanupRecent(st, daysBack, now);
      r.Cleaned? ==>
        r.totalArticles == |recent| && r.duplicatesFound == |FoundDups(md5, st, daysBack, now)|
        && r.sourcesChecked == (if recent == [] then None else Some(|Keys(recent, SourceKey)|))
    ensures var r := CleanupOf(md5, st, daysBack, now, readFails).1;
      r.Cleaned? ==>
        r.duplicatesFound <= r.totalArticles <= 1000 && r.duplicatesRemoved <= r.duplicatesFound
        && (r.sourcesChecked.Some? ==> 0 < r.sourcesChecked.value <= r.totalArticles)
        && (r.sourcesChecked.None? <==> r.totalArticles == 0)
  {
    if !readFails {
      var recent := CleanupRecent(st, daysBack, now);
      ArticlesSinceBasics(st.articles, now - daysBack * 86400, 1000);
      if recent != [] {
        var ks := Keys(recent, SourceKey);
        var dups := DupsOver(md5, recent, ks);
        DupsOverSize(md5, recent, ks);
        GroupsPartition(recent, SourceKey);
        RemoveAllCount(st.articles, dups);
        KeysBound(recent, SourceKey);
        assert SourceKey(recent[0]) in ks;
      }
    }
  }

  lemma {:induction false} KeysBound<T(!new), K(!new)>(s: seq<T>, key: T -> K)
    ensures |Keys(s, key)| <= |s|
    decreases |s|
  {
    if s != [] {
      var init := s[..|s| - 1];
      assert s == init + [s[|s| - 1]];
      KeysBound(init, key);
    }
  }

  /** One more removal: by the last article's id, when some row still has it. */
  lemma RemoveAllSnoc(arts: seq<Article>, ds: seq<Article>, d: Article)
    ensures var prev := RemoveAll(arts, ds);
      RemoveAll(arts, ds + [d]) ==
        if HasId(prev.0, d.id) then (WithoutId(prev.0, d.id.value), prev.1 + 1) else prev
  {
    assert (ds + [d])[..|ds|] == ds;
  }

  /** Removing two lists in turn is removing their concatenation. */
  lemma {:induction false} RemoveAllAppend(arts: seq<Article>, ds: seq<Article>, es: seq<Article>)
    ensures RemoveAll(arts, ds + es).0 == RemoveAll(RemoveAll(arts, ds).0, es).0
    ensures RemoveAll(arts, ds + es).1 == RemoveAll(arts, ds).1 + RemoveAll(RemoveAll(arts, ds).0, es).1
    decreases |es|
  {
    if es == [] {
      assert ds + es == ds;
    } else {
      var init := es[..|es| - 1];
      assert (ds + es)[..|ds + es| - 1] == ds + init;
      RemoveAllAppend(arts, ds, init);
    }
  }

  lemma {:induction false} RemoveAllCount(arts: seq<Article>, ds: seq<Article>)
    ensures RemoveAll(arts, ds).1 <= |ds|
  {
    if ds != [] {
      RemoveAllCount(arts, ds[..|ds| - 1]);
    }
  }

  /** After removal no stored row carries the id of a flagged article, and
      every row whose id no flagged article carries is still there. */
  lemma {:induction false} RemoveAllSpec(arts: seq<Article>, ds: seq<Article>)
    ensures var rest := RemoveAll(arts, ds).0;
      (forall a | a in rest :: a in arts && forall d | d in ds :: d.id.None? || a.id != d.id)
      && (forall a | a in arts && (forall d | d in ds :: d.id.None? || a.id != d.id) :: a in rest)
  {
    if ds != [] {
      var init := ds[..|ds| - 1];
      var d := ds[|ds| - 1];
      assert ds == init + [d];
      RemoveAllSpec(arts, init);
    }
  }

  /** The duplicates the corrected cleanup removes. */
  function FoundDups(md5: string -> HexDigest, st: StoreState, daysBack: int, now: int): seq<Article> {
    var recent := CleanupRecent(st, daysBack, now);
    if recent == [] then [] else DupsOver(md5, recent, Keys(recent, SourceKey))
  }

  /** The corrected cleanup removes every recent duplicate from the store and
      nothing else: each duplicate found was a stored row, no row carrying a
      duplicate's id remains, and every other row is kept. */
  lemma CleanupRemovesDuplicates(md5: string -> HexDigest, st: StoreState, daysBack: int, now: int)
    ensures CleanupOf(md5, st, daysBack, now, false).0.feeds == st.feeds
    ensures CleanupOf(md5, st, daysBack, now, false).0.nextId == st.nextId
    ensures forall d | d in FoundDups(md5, st, daysBack, now) :: d in st.articles
    ensures forall d, a | d in FoundDups(md5, st, daysBack, now) && d.id.Some?
                          && a in CleanupOf(md5, st, daysBack, now, false).0.articles :: a.id != d.id
    ensures forall a | a in st.articles && (forall d | d in FoundDups(md5, st, daysBack, now) :: d.id.None? || a.id != d.id)
                     :: a in CleanupOf(md5, st, daysBack, now, false).0.articles
    ensures forall a | a in CleanupOf(md5, st, daysBack, now, false).0.articles :: a in st.articles
  {
    CleanupStore(md5, st, daysBack, now);
    FoundDupsStored(md5, st, daysBack, now);
    RemoveAllSpec(st.articles, FoundDups(md5, st, daysBack, now));
  }

  lemma CleanupStore(md5: string -> HexDigest, st: StoreState, daysBack: int, now: int)
    ensures CleanupOf(md5, st, daysBack, now, false).0
         == st.(articles := RemoveAll(st.articles, FoundDups(md5, st, daysBack, now)).0)
  {
  }

  lemma FoundDupsStored(md5: string -> HexDigest, st: StoreState, daysBack: int, now: int)
    ensures forall d | d in FoundDups(md5, st, daysBack, now) :: d in st.articles
  {
    var recent := CleanupRecent(st, daysBack, now);
    ArticlesSinceBasics(st.articles, now - daysBack * 86400, 1000);
    assert forall a :: a in recent ==> a in st.articles;
    if recent != [] {
      var dups := DupsOver(md5, recent, Keys(recent, SourceKey));
      assert FoundDups(md5, st, daysBack, now) == dups;
      DupsOverWithin(md5, recent, Keys(recent, SourceKey));
      assert forall a :: a in dups ==> a in recent;
    }
  }

  /** As written the cleanup changes nothing and reports no removal, however
      many duplicates it finds. */
  lemma CleanupAsWrittenRemovesNothing(md5: string -> HexDigest, st: StoreState, daysBack: int, now: int, readFails: bool)
    ensures var (st', r) := CleanupAsWrittenOf(md5, st, daysBack, now, readFails);
      st' == st && (r.Cleaned? ==> r.duplicatesRemoved == 0)
    ensures var r := CleanupAsWrittenOf(md5, st, daysBack, now, readFails).1;
      var r' := CleanupOf(md5, st, daysBack, now, readFails).1;
      r.Cleaned? == r'.Cleaned? &&
      (r.Cleaned? ==> r.totalArticles == r'.totalArticles && r.duplicatesFound == r'.duplicatesFound
                      && r.sourcesChecked == r'.sourcesChecked)
  {
  }

  /** Two stored articles of one source under different URLs with the same
      content: the second is found as a duplicate by its content hash, and
      as written it stays in the store. */
  lemma AsWrittenKeepsRepeatedContent(md5: string -> HexDigest, a: Article, b: Article)
    requires a.url != b.url && a.source == b.source == Some("feed")
    requires Truthy(a.content) && b.content == a.content
    requires a.id == Some(1) && b.id == Some(2) && a.createdAt == b.createdAt == 100
    ensures var st := StoreState([a, b], [], 3);
      var (st', r) := CleanupAsWrittenOf(md5, st, 30, 100, false);
      r == Cleaned(2, 1, 0, Some(1)) && b in st'.articles
  {
    PairRecent(a, b);
    PairKeys(a, b);
    PairDups(md5, a, b);
  }

  /** The same two articles under the corrected removal: the report says one
      found and one removed, and only the first article is left. */
  lemma CorrectedRemovesRepeatedContent(md5: string -> HexDigest, a: Article, b: Article)
    requires a.url != b.url && a.source == b.source == Some("feed")
    requires Truthy(a.content) && b.content == a.content
    requires a.id == Some(1) && b.id == Some(2) && a.createdAt == b.createdAt == 100
    ensures var st := StoreState([a, b], [], 3);
      var (st', r) := CleanupOf(md5, st, 30, 100, false);
      r == Cleaned(2, 1, 1, Some(1)) && st'.articles == [a]
  {
    PairRecent(a, b);
    PairKeys(a, b);
    PairDups(md5, a, b);
    assert RemoveAll([a, b], [b]) == ([a], 1) by {
      assert [b][..0] == [];
      assert HasId([a, b], Some(2));
      WithoutIdPair(a, b);
    }
  }

  lemma PairRecent(a: Article, b: Article)
    requires a.createdAt == b.createdAt == 100
    ensures CleanupRecent(StoreState([a, b], [], 3), 30, 100) == [a, b]
  {
    assert CreatedSince([a, b], 100 - 30 * 86400) == [a, b] by {
      assert [a, b][1..] == [b];
    }
    assert SortDesc([a, b], CreatedKey) == [a, b] by {
      assert [a, b][1..] == [b];
      assert SortDesc([b], CreatedKey) == [b];
    }
  }

  lemma PairKeys(a: Article, b: Article)
    requires a.source == b.source == Some("feed")
    ensures Keys([a, b], SourceKey) == ["feed"]
    ensures WithKey([a, b], SourceKey, "feed") == [a, b]
  {
    assert SourceKey(a) == "feed" && SourceKey(b) == "feed";
    assert Keys([a], SourceKey) == ["feed"] by {
      assert [a][..0] == [];
    }
    assert WithKey([a], SourceKey, "feed") == [a] by {
      assert [a][..0] == [];
    }
    assert [a, b][..1] == [a];
  }

  lemma PairDups(md5: string -> HexDigest, a: Article, b: Article)
    requires a.url != b.url && Truthy(a.content) && b.content == a.content && a.createdAt == b.createdAt
    requires WithKey([a, b], SourceKey, "feed") == [a, b]
    ensures DupsOver(md5, [a, b], ["feed"]) == [b]
  {
    var g := SourceGroup([a, b], "feed");
    assert g == [a, b] by {
      assert [a, b][1..] == [b];
      assert SortDesc([b], CreatedKey) == [b];
    }
    var (sc1, d1) := ScanStep(md5, EmptyScan, a);
    assert !d1 && ContentHash(md5, a.content).value in sc1.hashes;
    assert ScanStep(md5, sc1, b).1;
    ScanFlagsCons(md5, EmptyScan, g);
    ScanFlagsCons(md5, sc1, [b]);
    var fl := ScanFlags(md5, EmptyScan, g);
    assert fl == [false, true];
    assert Flagged(g, fl) == [b] by {
      assert g[1..] == [b];
    }
    assert ["feed"][..0] == [];
  }

  lemma WithoutIdPair(a: Article, b: Article)
    requires a.id == Some(1) && b.id == Some(2)
    ensures WithoutId([a, b], 2) == [a]
  {
    assert [a, b][..1] == [a];
    assert [a][..0] == [];
  }
}
