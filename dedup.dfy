/** The duplicate-detection decisions of the RSS manager
    (bucket/rss_manager.py:262-342): title similarity, the content hash and
    the three-tier duplicate test against the stored rows. */
module Dedup {
  import opened Text
  import opened Models
  import opened Seqs
  import opened Store

  /** An MD5 hex digest: always 32 characters, so never empty (falsy). */
  type HexDigest = s: string | |s| == 32 witness "00000000000000000000000000000000"

  /** `set(n.split())`. */
  function WordSet(n: string): set<string> {
    set w | w in Words(n)
  }

  /** Jaccard similarity at least 0.8, without division:
      |A ∩ B| / |A ∪ B| >= 4/5. */
  predicate JaccardAtLeast08(a: set<string>, b: set<string>) {
    5 * |a * b| >= 4 * |a + b|
  }

  /** `_titles_similar(title1, title2)` with its default threshold 0.8. */
  predicate TitlesSimilar(t1: string, t2: string) {
    if t1 == [] || t2 == [] then false
    else
      var n1, n2 := Normalize(t1), Normalize(t2);
      if n1 == n2 then true
      else if IsSubstring(n1, n2) || IsSubstring(n2, n1) then true
      else
        var w1, w2 := WordSet(n1), WordSet(n2);
        if |w1| == 0 || |w2| == 0 then false
        else JaccardAtLeast08(w1, w2)
  }

  lemma SubstringOfSelf(s: string)
    ensures IsSubstring(s, s)
  {
  }

  /** The decision in one formula: both titles non-empty, and the normalised
      titles contain one another or share at least 80% of their distinct words. */
  lemma TitlesSimilarIff(t1: string, t2: string)
    ensures TitlesSimilar(t1, t2) <==>
      t1 != [] && t2 != [] &&
      (IsSubstring(Normalize(t1), Normalize(t2)) || IsSubstring(Normalize(t2), Normalize(t1)) ||
       (WordSet(Normalize(t1)) != {} && WordSet(Normalize(t2)) != {} &&
        JaccardAtLeast08(WordSet(Normalize(t1)), WordSet(Normalize(t2)))))
  {
    SubstringOfSelf(Normalize(t1));
  }

  /** The decision does not depend on the order of its arguments. */
  lemma TitlesSimilarSymmetric(t1: string, t2: string)
    ensures TitlesSimilar(t1, t2) == TitlesSimilar(t2, t1)
  {
    if t1 != [] && t2 != [] {
      var w1, w2 := WordSet(Normalize(t1)), WordSet(Normalize(t2));
      assert w1 * w2 == w2 * w1;
      assert w1 + w2 == w2 + w1;
    }
  }

  /** Every non-empty title is similar to itself. */
  lemma TitlesSimilarReflexive(t: string)
    ensures TitlesSimilar(t, t) <==> t != []
  {
  }

  /** Titles made of the same distinct words, in any order and any case, are
      similar. */
  lemma SameWordsSimilar(t1: string, t2: string)
    requires t1 != [] && t2 != []
    requires WordSet(Normalize(t1)) == WordSet(Normalize(t2)) != {}
    ensures TitlesSimilar(t1, t2)
  {
    var w := WordSet(Normalize(t1));
    assert w * w == w && w + w == w;
  }

  lemma NormalizeEmpty()
    ensures Normalize([]) == []
  {
    assert Lower([]) == [];
    assert Words([]) == [];
  }

  /** Passing the already-normalised title changes nothing, provided the
      title has at least one non-whitespace character. */
  lemma {:induction false} NormalizedKeyInvariant(t: string, s: string)
    requires Normalize(t) != []
    ensures TitlesSimilar(Normalize(t), s) == TitlesSimilar(t, s)
  {
    NormalizeIdempotent(t);
    NormalizeEmpty();
  }

  /** A whitespace-only title normalises to "", which is contained in every
      string: the raw title is similar to every non-empty title, while its
      normalised key "" is similar to none. */
  lemma WhitespaceTitleQuirk(t: string, s: string)
    requires t != [] && Normalize(t) == [] && s != []
    ensures TitlesSimilar(t, s)
    ensures !TitlesSimilar(Normalize(t), s)
  {
  }

  /** `_get_content_hash`: `None` for missing or empty content, else the MD5
      of the first 1000 characters. */
  function ContentHash(md5: string -> HexDigest, content: Option<string>): (r: Option<HexDigest>)
    ensures r.Some? <==> Truthy(content)
  {
    if Truthy(content) then Some(md5(Take(content.value, 1000))) else None
  }

  /** Contents that agree on their first 1000 characters hash alike, whatever
      follows. */
  lemma ContentHashPrefix(md5: string -> HexDigest, c1: string, c2: string)
    requires c1 != [] && c2 != []
    requires Take(c1, 1000) == Take(c2, 1000)
    ensures ContentHash(md5, Some(c1)) == ContentHash(md5, Some(c2))
  {
  }

  /** Both published dates present and less than 24 hours apart. */
  predicate DatesClose(d1: Option<int>, d2: Option<int>) {
    d1.Some? && d2.Some? && -86400 < d1.value - d2.value < 86400
  }

  /** Without both dates there is no closeness. */
  lemma DatesCloseNeedsBoth(d: Option<int>)
    ensures !DatesClose(None, d) && !DatesClose(d, None)
  {
  }

  /** Tier 2: the candidate has a title, and some stored row of the same source
      has a similar title and a published date within 24 hours. */
  predicate SimilarTitleNearby(rows: seq<Article>, a: Article) {
    a.title != [] && exists i :: 0 <= i < |rows| && TitleMatch(rows[i], a)
  }

  /** The stored row `r` has a title similar to the candidate's and was
      published within 24 hours of it. */
  predicate TitleMatch(r: Article, a: Article) {
    r.title != [] && TitlesSimilar(a.title, r.title) && DatesClose(a.publishedDate, r.publishedDate)
  }

  /** The stored row `r` has content hashing like the candidate's. */
  predicate HashMatch(md5: string -> HexDigest, r: Article, a: Article) {
    Truthy(r.content) && ContentHash(md5, r.content) == ContentHash(md5, a.content)
  }

  /** Tier 3: the candidate has content, and some stored row of the same
      source has content with the same hash. */
  predicate SameContentHash(md5: string -> HexDigest, rows: seq<Article>, a: Article) {
    Truthy(a.content) && exists i :: 0 <= i < |rows| && HashMatch(md5, rows[i], a)
  }

  /** `_is_duplicate_article(a, feed)` against the stored rows; `readFails`
      is a store read that raises, which counts as a duplicate. */
  predicate IsDuplicate(md5: string -> HexDigest, stored: seq<Article>, a: Article, feed: Feed, readFails: bool) {
    readFails
    || UrlSeen(stored, a.url)
    || SimilarTitleNearby(ArticlesBySource(stored, feed.name), a)
    || SameContentHash(md5, ArticlesBySource(stored, feed.name), a)
  }

  /** Adding rows to the store never turns a duplicate into a non-duplicate. */
  lemma DuplicateMonotone(md5: string -> HexDigest, stored: seq<Article>, big: seq<Article>,
                          a: Article, feed: Feed, readFails: bool)
    requires forall x :: x in stored ==> x in big
    requires IsDuplicate(md5, stored, a, feed, readFails)
    ensures IsDuplicate(md5, big, a, feed, false) || readFails
  {
    if !readFails {
      ArticlesBySourceMembers(stored, feed.name);
      ArticlesBySourceMembers(big, feed.name);
      var rows, rows' := ArticlesBySource(stored, feed.name), ArticlesBySource(big, feed.name);
      if UrlSeen(stored, a.url) {
        var i :| 0 <= i < |stored| && stored[i].url == a.url;
        assert stored[i] in big;
        var j :| 0 <= j < |big| && big[j] == stored[i];
      } else if SimilarTitleNearby(rows, a) {
        var i :| 0 <= i < |rows| && TitleMatch(rows[i], a);
        assert rows[i] in stored;
        assert rows[i] in rows';
        var j :| 0 <= j < |rows'| && rows'[j] == rows[i];
      } else {
        assert SameContentHash(md5, rows, a);
        var i :| 0 <= i < |rows| && HashMatch(md5, rows[i], a);
        assert rows[i] in stored;
        assert rows[i] in rows';
        var j :| 0 <= j < |rows'| && rows'[j] == rows[i];
      }
    }
  }

  /** A stored row with the candidate's URL makes it a duplicate regardless
      of title, date and content. */
  lemma StoredUrlIsDuplicate(md5: string -> HexDigest, stored: seq<Article>, a: Article, feed: Feed, i: nat)
    requires i < |stored| && stored[i].url == a.url
    ensures IsDuplicate(md5, stored, a, feed, false)
  {
  }

  /** A similar title alone is not enough: without a published date on the
      candidate, only the URL and the content hash count. */
  lemma UndatedCandidateIgnoresTitles(md5: string -> HexDigest, stored: seq<Article>, a: Article, feed: Feed)
    requires a.publishedDate.None?
    ensures IsDuplicate(md5, stored, a, feed, false) <==>
      UrlSeen(stored, a.url) || SameContentHash(md5, ArticlesBySource(stored, feed.name), a)
  {
  }
}
