/** The feed-list builder of update_feeds.py: `flatten_feeds` turns a nested
    catalogue of categories into a flat list of numbered feed records, and
    `main` puts the fixed Hacker News record in front and counts the tags.
    The JSON file and the console report are outside the model. */
module FeedList {
  import opened Models
  import opened Text

  /** A value of the catalogue: a feed URL, a dictionary of named values in
      insertion order, or anything else (skipped). */
  datatype Node = Url(url: string) | Dict(entries: seq<(string, Node)>) | Other

  /** One entry of feeds.json. */
  datatype FeedRecord = FeedRecord(
    id: int,
    name: string,
    url: string,
    description: string,
    isActive: bool,
    tags: seq<string>,
    lastFetched: Option<string>,
    createdAt: string)

  /** A size that decreases into nested dictionaries. */
  function SizeEntries(es: seq<(string, Node)>): (n: nat)
    ensures es != [] ==> n > SizeEntries(es[..|es| - 1])
    decreases es
  {
    if es == [] then 0
    else
      var v := es[|es| - 1].1;
      assert v < es[|es| - 1];
      SizeEntries(es[..|es| - 1]) + (if v.Dict? then 1 + SizeEntries(v.entries) else 1)
  }

  function SizeOf(v: Node): nat {
    if v.Dict? then 1 + SizeEntries(v.entries) else 1
  }

  lemma {:induction false} SizeOfLast(es: seq<(string, Node)>)
    requires es != []
    ensures SizeOf(es[|es| - 1].1) <= SizeEntries(es)
  {
  }

  lemma {:induction false} SizeOfElement(es: seq<(string, Node)>, i: nat)
    requires i < |es|
    ensures SizeOf(es[i].1) <= SizeEntries(es)
    decreases |es|
  {
    if i < |es| - 1 {
      var init := es[..|es| - 1];
      assert init[i] == es[i];
      SizeOfElement(init, i);
    }
  }

  /** `f"{parent_path}_{key}" if parent_path else key`. */
  function PathOf(parent: string, key: string): string {
    if parent == "" then key else parent + "_" + key
  }

  /** `key.replace('_', ' ').title()`. */
  function CleanName(key: string): string {
    TitleCase(ReplaceChar(key, '_', ' '))
  }

  /** `f"{path.replace('_', ' ').title()} - {name}"`. */
  function DescriptionOf(path: string, name: string): string {
    TitleCase(ReplaceChar(path, '_', ' ')) + " - " + name
  }

  /** `word in s.lower()`. */
  predicate Mentions(s: string, word: string) {
    IsSubstring(word, Lower(s))
  }

  function TagsIf(b: bool, tags: seq<string>): seq<string> {
    if b then tags else []
  }

  /** The tags of a feed of a category of URLs at `path`, named `key`. */
  function CategoryTags(path: string, key: string): seq<string> {
    TagsIf(Mentions(path, "neuroscience"), ["neuroscience", "research"])
    + TagsIf(Mentions(path, "tech"), ["tech", "programming"])
    + TagsIf(Mentions(path, "pubmed"), ["pubmed", "research"])
    + TagsIf(Mentions(path, "journal"), ["journal", "academic"])
    + TagsIf(Mentions(path, "ieee"), ["ieee", "engineering"])
    + TagsIf(Mentions(path, "arxiv"), ["preprint", "research"])
    + TagsIf(Mentions(path, "blog"), ["blog", "news"])
    + TagsIf(Mentions(key, "reddit"), ["reddit", "community"])
    + TagsIf(Mentions(key, "fmhy"), ["tools", "resources"])
  }

  /** The tags of a URL given directly beside other kinds of values. */
  function DirectTags(path: string): seq<string> {
    TagsIf(Mentions(path, "neuroscience"), ["neuroscience", "research"])
    + TagsIf(Mentions(path, "tech"), ["tech", "programming"])
  }

  /** A URL of the catalogue and where it sits: `path` is the path the
      description is made from, `key` its own key, and `inCategory` tells a
      URL of an all-URL dictionary from a URL given directly. */
  datatype Leaf = Leaf(path: string, key: string, url: string, inCategory: bool)

  /** `all(isinstance(v, str) for v in value.values())`. */
  predicate AllUrls(es: seq<(string, Node)>) {
    forall i :: 0 <= i < |es| ==> es[i].1.Url?
  }

  /** The URLs of an all-URL dictionary at `path`, in order. */
  function CategoryLeaves(es: seq<(string, Node)>, path: string): (r: seq<Leaf>)
    requires AllUrls(es)
    ensures |r| == |es|
    ensures forall j :: 0 <= j < |es| ==> r[j] == Leaf(path, es[j].0, es[j].1.url, true)
  {
    seq(|es|, j requires 0 <= j < |es| => Leaf(path, es[j].0, es[j].1.url, true))
  }

  /** The URLs under the dictionary entries `es` below `parent`, in the
      order `flatten_feeds` visits them. */
  function Leaves(es: seq<(string, Node)>, parent: string): seq<Leaf>
    decreases SizeEntries(es), 1
  {
    if es == [] then []
    else
      SizeOfLast(es);
      Leaves(es[..|es| - 1], parent) + EntryLeaves(es[|es| - 1].0, es[|es| - 1].1, parent)
  }

  function EntryLeaves(key: string, v: Node, parent: string): seq<Leaf>
    decreases SizeOf(v), 0
  {
    var path := PathOf(parent, key);
    match v
    case Url(u) => [Leaf(path, key, u, false)]
    case Dict(sub) => if AllUrls(sub) then CategoryLeaves(sub, path) else Leaves(sub, path)
    case Other => []
  }

  /** The record `flatten_feeds` writes for a URL, numbered `id`. */
  function RecordOf(l: Leaf, id: int, createdAt: string): FeedRecord {
    var name := CleanName(l.key);
    FeedRecord(id, name, l.url, DescriptionOf(l.path, name), true,
      if l.inCategory then CategoryTags(l.path, l.key) else DirectTags(l.path), None, createdAt)
  }

  /** The records of `ls`, numbered from `id` on. */
  function Numbered(ls: seq<Leaf>, id: int, createdAt: string): (r: seq<FeedRecord>)
    ensures |r| == |ls|
  {
    seq(|ls|, k requires 0 <= k < |ls| => RecordOf(ls[k], id + k, createdAt))
  }

  lemma NumberedAppend(a: seq<Leaf>, b: seq<Leaf>, id: int, createdAt: string)
    ensures Numbered(a + b, id, createdAt) == Numbered(a, id, createdAt) + Numbered(b, id + |a|, createdAt)
  {
    var l, r := Numbered(a + b, id, createdAt), Numbered(a, id, createdAt) + Numbered(b, id + |a|, createdAt);
    forall k | 0 <= k < |l| ensures l[k] == r[k] {
      if k >= |a| {
        assert (a + b)[k] == b[k - |a|];
      }
    }
  }

  lemma LeavesStep(es: seq<(string, Node)>, i: nat, parent: string)
    requires i < |es|
    ensures Leaves(es[..i + 1], parent) == Leaves(es[..i], parent) + EntryLeaves(es[i].0, es[i].1, parent)
  {
    assert es[..i + 1][..i] == es[..i] && es[..i + 1][i] == es[i];
  }

  lemma NumberedStep(a: seq<Leaf>, b: seq<Leaf>, id: int, next: int, createdAt: string,
                     feeds: seq<FeedRecord>, more: seq<FeedRecord>)
    requires next == id + |a|
    requires feeds == Numbered(a, id, createdAt) && more == Numbered(b, next, createdAt)
    ensures feeds + more == Numbered(a + b, id, createdAt)
  {
    NumberedAppend(a, b, id, createdAt);
  }

  /** The loop over an all-URL dictionary of `flatten_feeds`. */
  method CategoryFeeds(es: seq<(string, Node)>, path: string, feedId: int, createdAt: string)
    returns (feeds: seq<FeedRecord>, nextId: int)
    requires AllUrls(es)
    ensures feeds == Numbered(CategoryLeaves(es, path), feedId, createdAt)
    ensures nextId == feedId + |es|
  {
    feeds, nextId := [], feedId;
    ghost var ls := CategoryLeaves(es, path);
    for j := 0 to |es|
      invariant nextId == feedId + j
      invariant feeds == Numbered(ls[..j], feedId, createdAt)
    {
      var feedName := es[j].0;
      var name := CleanName(feedName);
      var tags := CategoryTags(path, feedName);
      var record := FeedRecord(nextId, name, es[j].1.url, DescriptionOf(path, name), true, tags, None, createdAt);
      assert record == RecordOf(ls[j], nextId, createdAt);
      assert ls[..j + 1] == ls[..j] + [ls[j]];
      NumberedStep(ls[..j], [ls[j]], feedId, nextId, createdAt, feeds, [record]);
      feeds := feeds + [record];
      nextId := nextId + 1;
    }
    assert ls[..|es|] == ls;
  }

  /** `flatten_feeds(data, parent_path, feed_id)`: one record per URL of the
      catalogue, in visiting order, numbered from `feedId` on, and the next
      free id. */
  method Flatten(es: seq<(string, Node)>, parent: string, feedId: int, createdAt: string)
    returns (feeds: seq<FeedRecord>, nextId: int)
    ensures feeds == Numbered(Leaves(es, parent), feedId, createdAt)
    ensures nextId == feedId + |Leaves(es, parent)|
    decreases SizeEntries(es), 1
  {
    feeds, nextId := [], feedId;
    for i := 0 to |es|
      invariant feeds == Numbered(Leaves(es[..i], parent), feedId, createdAt)
      invariant nextId == feedId + |Leaves(es[..i], parent)|
    {
      LeavesStep(es, i, parent);
      SizeOfElement(es, i);
      var more, next := FlattenEntry(es[i].0, es[i].1, parent, nextId, createdAt);
      NumberedStep(Leaves(es[..i], parent), EntryLeaves(es[i].0, es[i].1, parent), feedId, nextId, createdAt, feeds, more);
      feeds := feeds + more;
      nextId := next;
    }
    assert es[..|es|] == es;
  }

  /** The body of the loop of `flatten_feeds` for the entry `key: value`. */
  method FlattenEntry(key: string, value: Node, parent: string, feedId: int, createdAt: string)
    returns (feeds: seq<FeedRecord>, nextId: int)
    ensures feeds == Numbered(EntryLeaves(key, value, parent), feedId, createdAt)
    ensures nextId == feedId + |EntryLeaves(key, value, parent)|
    decreases SizeOf(value), 0
  {
    var path := PathOf(parent, key);
    feeds, nextId := [], feedId;
    if value.Dict? {
      if forall j :: 0 <= j < |value.entries| ==> value.entries[j].1.Url? {
        feeds, nextId := CategoryFeeds(value.entries, path, feedId, createdAt);
      } else {
        feeds, nextId := Flatten(value.entries, path, feedId, createdAt);
      }
    } else if value.Url? {
      var name := CleanName(key);
      feeds := [FeedRecord(feedId, name, value.url, DescriptionOf(path, name), true, DirectTags(path), None, createdAt)];
      nextId := feedId + 1;
    }
  }

  // ---------------------------------------------------------------------
  // What the flattening promises

  /** Every URL of the catalogue in visiting order: a reference definition
      that knows nothing of paths, names or the all-URL test. */
  function UrlsIn(es: seq<(string, Node)>): seq<string>
    decreases SizeEntries(es)
  {
    if es == [] then []
    else
      SizeOfLast(es);
      var v := es[|es| - 1].1;
      UrlsIn(es[..|es| - 1]) + (match v case Url(u) => [u] case Dict(sub) => UrlsIn(sub) case Other => [])
  }

  function UrlsOf(ls: seq<Leaf>): (r: seq<string>)
    ensures |r| == |ls|
  {
    seq(|ls|, k requires 0 <= k < |ls| => ls[k].url)
  }

  lemma UrlsOfAppend(a: seq<Leaf>, b: seq<Leaf>)
    ensures UrlsOf(a + b) == UrlsOf(a) + UrlsOf(b)
  {
    var l, r := UrlsOf(a + b), UrlsOf(a) + UrlsOf(b);
    forall k | 0 <= k < |l| ensures l[k] == r[k] {
      if k >= |a| {
        assert (a + b)[k] == b[k - |a|];
      }
    }
  }

  lemma {:induction false} CategoryUrls(es: seq<(string, Node)>, path: string)
    requires AllUrls(es)
    ensures UrlsOf(CategoryLeaves(es, path)) == UrlsIn(es)
    decreases |es|
  {
    if es != [] {
      var init := es[..|es| - 1];
      assert AllUrls(init) by {
        forall i | 0 <= i < |init| ensures init[i].1.Url? {
          assert init[i] == es[i];
        }
      }
      CategoryUrls(init, path);
      var ls := CategoryLeaves(es, path);
      assert ls == CategoryLeaves(init, path) + [ls[|es| - 1]];
      UrlsOfAppend(CategoryLeaves(init, path), [ls[|es| - 1]]);
    }
  }

  /** Exactly one record per URL of the catalogue, with that URL, in
      visiting order: the URLs of the leaves are all the URLs. */
  lemma {:induction false} LeavesUrls(es: seq<(string, Node)>, parent: string)
    ensures UrlsOf(Leaves(es, parent)) == UrlsIn(es)
    decreases SizeEntries(es), 1
  {
    if es != [] {
      SizeOfLast(es);
      var init, last := es[..|es| - 1], es[|es| - 1];
      LeavesUrls(init, parent);
      EntryLeavesUrls(last.0, last.1, parent);
      UrlsOfAppend(Leaves(init, parent), EntryLeaves(last.0, last.1, parent));
    }
  }

  lemma {:induction false} EntryLeavesUrls(key: string, v: Node, parent: string)
    ensures UrlsOf(EntryLeaves(key, v, parent)) == (match v case Url(u) => [u] case Dict(sub) => UrlsIn(sub) case Other => [])
    decreases SizeOf(v), 0
  {
    var path := PathOf(parent, key);
    if v.Dict? {
      if AllUrls(v.entries) {
        CategoryUrls(v.entries, path);
      } else {
        LeavesUrls(v.entries, path);
      }
    }
  }

  /** The path a record's description is made from extends the parent path
      with '_' and at least one key. */
  lemma {:induction false} LeavesUnderParent(es: seq<(string, Node)>, parent: string)
    ensures forall l :: l in Leaves(es, parent) ==> parent == "" || parent + "_" <= l.path
    decreases SizeEntries(es), 1
  {
    if es != [] {
      SizeOfLast(es);
      var init, last := es[..|es| - 1], es[|es| - 1];
      LeavesUnderParent(init, parent);
      EntryLeavesUnderParent(last.0, last.1, parent);
    }
  }

  lemma {:induction false} EntryLeavesUnderParent(key: string, v: Node, parent: string)
    ensures forall l :: l in EntryLeaves(key, v, parent) ==> parent == "" || parent + "_" <= l.path
    decreases SizeOf(v), 0
  {
    var path := PathOf(parent, key);
    assert parent == "" || parent + "_" <= path;
    if v.Dict? && !AllUrls(v.entries) {
      LeavesUnderParent(v.entries, path);
      forall l | l in Leaves(v.entries, path) ensures parent == "" || parent + "_" <= l.path {
        if parent != "" {
          assert path == parent + "_" + key;
          assert path + "_" <= l.path;
          assert (parent + "_") <= path;
        }
      }
    }
  }

  /** The records of `flatten_feeds` are numbered one by one from the start
      id, every one is active and never fetched, and each carries the name
      and description rules of its URL. */
  lemma NumberedSpec(ls: seq<Leaf>, id: int, createdAt: string)
    ensures var r := Numbered(ls, id, createdAt);
      (forall k :: 0 <= k < |r| ==>
         && r[k].id == id + k && r[k].isActive && r[k].lastFetched == None
         && r[k].url == ls[k].url && r[k].name == CleanName(ls[k].key)
         && r[k].description == DescriptionOf(ls[k].path, r[k].name))
      && forall i, j :: 0 <= i < j < |r| ==> r[i].id != r[j].id
  {
  }

  /** The tag rules: a path mentioning "neuroscience" gives "neuroscience"
      and "research"; a direct URL gets only the neuroscience and tech tags;
      a category URL whose key mentions "reddit" gets "reddit" and
      "community". A category URL carries the tags of the nine category
      rules (`CategoryTagsSpec`), a direct URL those of the two direct
      rules (`DirectTagsSpec`). */
  lemma TagRules(l: Leaf, id: int, createdAt: string)
    ensures var tags := RecordOf(l, id, createdAt).tags;
      (Mentions(l.path, "neuroscience") ==> "neuroscience" in tags && "research" in tags)
      && (!l.inCategory ==> forall t :: t in tags ==> t in ["neuroscience", "research", "tech", "programming"])
      && (l.inCategory && Mentions(l.key, "reddit") ==> "reddit" in tags && "community" in tags)
    ensures l.inCategory ==> RecordOf(l, id, createdAt).tags == CategoryTags(l.path, l.key)
    ensures !l.inCategory ==> RecordOf(l, id, createdAt).tags == DirectTags(l.path)
  {
  }

  /** The nine rules of a category URL: each path rule (neuroscience, tech,
      pubmed, journal, ieee, arxiv, blog) and each name rule (reddit, fmhy)
      that fires adds its two tags, and no other tag is ever given; every
      tag present comes from a rule that fires (`CategoryTagsMember`). */
  lemma CategoryTagsSpec(path: string, key: string)
    ensures var tags := CategoryTags(path, key);
      && (Mentions(path, "neuroscience") ==> "neuroscience" in tags && "research" in tags)
      && (Mentions(path, "tech") ==> "tech" in tags && "programming" in tags)
      && (Mentions(path, "pubmed") ==> "pubmed" in tags && "research" in tags)
      && (Mentions(path, "journal") ==> "journal" in tags && "academic" in tags)
      && (Mentions(path, "ieee") ==> "ieee" in tags && "engineering" in tags)
      && (Mentions(path, "arxiv") ==> "preprint" in tags && "research" in tags)
      && (Mentions(path, "blog") ==> "blog" in tags && "news" in tags)
      && (Mentions(key, "reddit") ==> "reddit" in tags && "community" in tags)
      && (Mentions(key, "fmhy") ==> "tools" in tags && "resources" in tags)
      && (forall t :: t in tags ==> t in CategoryVocabulary)
  {
    ResearchRules(path, key);
    AcademicRules(path, key);
    SourceRules(path, key);
    forall t | t in CategoryTags(path, key)
      ensures t in CategoryVocabulary
    {
      CategoryTagsMember(path, key, t);
    }
  }

  lemma ResearchRules(path: string, key: string)
    ensures var tags := CategoryTags(path, key);
      && (Mentions(path, "neuroscience") ==> "neuroscience" in tags && "research" in tags)
      && (Mentions(path, "tech") ==> "tech" in tags && "programming" in tags)
      && (Mentions(path, "pubmed") ==> "pubmed" in tags && "research" in tags)
  {
  }

  lemma AcademicRules(path: string, key: string)
    ensures var tags := CategoryTags(path, key);
      && (Mentions(path, "journal") ==> "journal" in tags && "academic" in tags)
      && (Mentions(path, "ieee") ==> "ieee" in tags && "engineering" in tags)
      && (Mentions(path, "arxiv") ==> "preprint" in tags && "research" in tags)
  {
  }

  lemma SourceRules(path: string, key: string)
    ensures var tags := CategoryTags(path, key);
      && (Mentions(path, "blog") ==> "blog" in tags && "news" in tags)
      && (Mentions(key, "reddit") ==> "reddit" in tags && "community" in tags)
      && (Mentions(key, "fmhy") ==> "tools" in tags && "resources" in tags)
  {
  }

  /** `t` is one of the tags of a rule that fires. */
  predicate TagGiven(path: string, key: string, t: string) {
    || (Mentions(path, "neuroscience") && t in ["neuroscience", "research"])
    || (Mentions(path, "tech") && t in ["tech", "programming"])
    || (Mentions(path, "pubmed") && t in ["pubmed", "research"])
    || (Mentions(path, "journal") && t in ["journal", "academic"])
    || (Mentions(path, "ieee") && t in ["ieee", "engineering"])
    || (Mentions(path, "arxiv") && t in ["preprint", "research"])
    || (Mentions(path, "blog") && t in ["blog", "news"])
    || (Mentions(key, "reddit") && t in ["reddit", "community"])
    || (Mentions(key, "fmhy") && t in ["tools", "resources"])
  }

  /** A tag is in the list of a category URL exactly when some rule that
      gives it fires. */
  lemma CategoryTagsMember(path: string, key: string, t: string)
    ensures t in CategoryTags(path, key) <==> TagGiven(path, key, t)
  {
  }

  /** Every tag a category rule can give. */
  const CategoryVocabulary := ["neuroscience", "research", "tech", "programming", "pubmed", "journal", "academic",
    "ieee", "engineering", "preprint", "blog", "news", "reddit", "community", "tools", "resources"]

  /** The tags of a direct URL: the neuroscience pair exactly when its path
      mentions "neuroscience", the tech pair exactly when it mentions
      "tech", and nothing else. */
  lemma DirectTagsSpec(path: string)
    ensures var tags := DirectTags(path);
      && ("neuroscience" in tags <==> Mentions(path, "neuroscience"))
      && ("research" in tags <==> Mentions(path, "neuroscience"))
      && ("tech" in tags <==> Mentions(path, "tech"))
      && ("programming" in tags <==> Mentions(path, "tech"))
      && (forall t :: t in tags ==> t in ["neuroscience", "research", "tech", "programming"])
  {
  }

  // ---------------------------------------------------------------------
  // main

  /** The Hacker News record kept at the head of the list. */
  const HackerNews := FeedRecord(1, "Hacker News", "https://hnrss.org/frontpage", "Hacker News front page",
    true, ["tech", "news"], Some("2025-09-07T00:01:57.797271+00:00"), "2025-01-06T00:00:00Z")

  /** The feed list `main` writes: Hacker News, then the flattened catalogue
      numbered from 2. */
  method BuildFeedList(data: seq<(string, Node)>, createdAt: string) returns (all: seq<FeedRecord>)
    ensures all == [HackerNews] + Numbered(Leaves(data, ""), 2, createdAt)
  {
    var feeds, _ := Flatten(data, "", 2, createdAt);
    all := [HackerNews] + feeds;
  }

  /** In the list `main` writes the ids run 1, 2, 3, ... and the URLs after
      Hacker News are those of the catalogue. */
  lemma FeedListSpec(data: seq<(string, Node)>, createdAt: string)
    ensures var all := [HackerNews] + Numbered(Leaves(data, ""), 2, createdAt);
      |all| == 1 + |UrlsIn(data)|
      && (forall k :: 0 <= k < |all| ==> all[k].id == k + 1)
      && forall k :: 1 <= k < |all| ==> all[k].url == UrlsIn(data)[k - 1]
  {
    LeavesUrls(data, "");
    NumberedSpec(Leaves(data, ""), 2, createdAt);
  }

  /** How often `t` occurs in `ts`. */
  function Occurrences(ts: seq<string>, t: string): nat {
    if ts == [] then 0 else Occurrences(ts[..|ts| - 1], t) + (if ts[|ts| - 1] == t then 1 else 0)
  }

  /** How often `t` occurs in the tag lists of `feeds`. */
  function TagCount(feeds: seq<FeedRecord>, t: string): nat {
    if feeds == [] then 0 else TagCount(feeds[..|feeds| - 1], t) + Occurrences(feeds[|feeds| - 1].tags, t)
  }

  function CountOf(counts: map<string, nat>, t: string): nat {
    if t in counts then counts[t] else 0
  }

  lemma {:induction false} OccurrencesPositive(ts: seq<string>, t: string)
    ensures Occurrences(ts, t) > 0 <==> t in ts
  {
    if ts != [] {
      OccurrencesPositive(ts[..|ts| - 1], t);
      assert ts == ts[..|ts| - 1] + [ts[|ts| - 1]];
    }
  }

  /** A tag is counted exactly when some feed carries it. */
  lemma {:induction false} TagCountPositive(feeds: seq<FeedRecord>, t: string)
    ensures TagCount(feeds, t) > 0 <==> exists f :: f in feeds && t in f.tags
  {
    if feeds != [] {
      var init, last := feeds[..|feeds| - 1], feeds[|feeds| - 1];
      TagCountPositive(init, t);
      OccurrencesPositive(last.tags, t);
      assert feeds == init + [last];
    }
  }

  /** The inner loop of the category count over one feed's tags. */
  method CountTags(counts: map<string, nat>, tags: seq<string>) returns (counts': map<string, nat>)
    requires forall t :: t in counts ==> counts[t] > 0
    ensures forall t :: t in counts' ==> counts'[t] > 0
    ensures forall t :: CountOf(counts', t) == CountOf(counts, t) + Occurrences(tags, t)
  {
    counts' := counts;
    for j := 0 to |tags|
      invariant forall t :: t in counts' ==> counts'[t] > 0
      invariant forall t :: CountOf(counts', t) == CountOf(counts, t) + Occurrences(tags[..j], t)
    {
      assert tags[..j + 1][..j] == tags[..j];
      counts' := counts'[tags[j] := CountOf(counts', tags[j]) + 1];
    }
    assert tags[..|tags|] == tags;
  }

  /** The category count of `main`: every tag that occurs is a key, with
      the number of its occurrences over all feeds. */
  method CountCategories(feeds: seq<FeedRecord>) returns (counts: map<string, nat>)
    ensures forall t :: t in counts <==> TagCount(feeds, t) > 0
    ensures forall t :: CountOf(counts, t) == TagCount(feeds, t)
  {
    counts := map[];
    for i := 0 to |feeds|
      invariant forall t :: t in counts ==> counts[t] > 0
      invariant forall t :: CountOf(counts, t) == TagCount(feeds[..i], t)
    {
      assert feeds[..i + 1][..i] == feeds[..i];
      counts := CountTags(counts, feeds[i].tags);
    }
    assert feeds[..|feeds|] == feeds;
  }
}
