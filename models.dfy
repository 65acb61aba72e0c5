/** The records that flow through the pipeline (bucket/models.py): articles,
    feeds and their enumerations.  Timestamps are whole seconds. */
module Models {

  datatype Option<T> = None | Some(value: T)

  /** The value as a list of at most one element. */
  function ToSeq<T>(o: Option<T>): seq<T> {
    if o.None? then [] else [o.value]
  }

  datatype ArticleStatus = Pending | Fetched | Summarized | Delivered | Failed

  datatype ArticlePriority = Low | Medium | High | Urgent

  /** One article.  `url` is the string form of the pydantic URL; `metadata`
      keeps the string-valued entries the pipeline writes (`feed_title`,
      `feed_url`). */
  datatype Article = Article(
    id: Option<int>,
    url: string,
    title: string,
    content: Option<string>,
    cleanedContent: Option<string>,
    author: Option<string>,
    publishedDate: Option<int>,
    fetchedDate: Option<int>,
    status: ArticleStatus,
    priority: ArticlePriority,
    tags: seq<string>,
    source: Option<string>,
    wordCount: Option<int>,
    readingTime: Option<int>,
    metadata: map<string, string>,
    createdAt: int)

  /** One RSS feed. */
  datatype Feed = Feed(
    id: Option<int>,
    name: string,
    url: string,
    description: Option<string>,
    lastFetched: Option<int>,
    isActive: bool,
    tags: seq<string>)

  /** Python truthiness of an optional string: present and non-empty. */
  predicate Truthy(s: Option<string>) {
    s.Some? && s.value != []
  }

  /** `x or 0` for an optional count. */
  function OrZero(x: Option<int>): int {
    if x.Some? then x.value else 0
  }
}
