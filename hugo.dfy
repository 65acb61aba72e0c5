/** `HugoContentGenerator` (bucket/hugo_integration.py): the slug, content
    clean-up and truncation helpers, the front-matter tag set, the grouping of
    a report's articles by feed and `process_feeds_for_read_later`.  Paths,
    dates, markdown text and the `hugo` subprocess are outside the model; the
    report file write is a parameter. */
module Hugo {
  import opened Models
  import opened Text
  import opened Seqs
  import opened Store

  // ---------------------------------------------------------------------
  // _slugify

  /** A character of the regular-expression class `\w` (ASCII letters and
      digits and `_`; see README, "Left out"). */
  predicate IsWordChar(c: char) { IsLetter(c) || IsDigit(c) || c == '_' }

  /** A character of the class `[-\s]`. */
  predicate IsSep(c: char) { c == '-' || IsSpace(c) }

  /** `re.sub(r'[^\w\s-]', '', s)`: keep word characters, whitespace and '-'. */
  function KeepSlugChars(s: string): (r: string)
    ensures |r| <= |s|
    ensures forall i :: 0 <= i < |r| ==> r[i] in s && (IsWordChar(r[i]) || IsSep(r[i]))
  {
    if s == [] then []
    else (if IsWordChar(s[0]) || IsSep(s[0]) then [s[0]] else []) + KeepSlugChars(s[1..])
  }

  /** Membership in the class `[\w\s-]` that `_slugify` keeps. */
  predicate InSlugClass(c: char) { IsWordChar(c) || IsSep(c) }

  /** The substitution is the comprehension `[c for c in s if c in class]`:
      it keeps the class characters of `s`, all of them and in order. */
  lemma {:induction false} KeepSlugCharsFilter(s: string)
    ensures KeepSlugChars(s) == WithKey(s, InSlugClass, true)
    decreases |s|
  {
    if s != [] {
      KeepSlugCharsFilter(s[1..]);
      FilterFrontStep(s, InSlugClass, true);
    }
  }

  /** A character survives exactly when it occurs in `s` and is in the class. */
  lemma KeepSlugCharsMembers(s: string)
    ensures forall c :: c in KeepSlugChars(s) <==> c in s && InSlugClass(c)
  {
    KeepSlugCharsFilter(s);
    WithKeyMembers(s, InSlugClass, true);
  }

  /** A text made only of class characters comes back whole. */
  lemma {:induction false} KeepSlugCharsAllKept(s: string)
    requires forall i :: 0 <= i < |s| ==> InSlugClass(s[i])
    ensures KeepSlugChars(s) == s
    decreases |s|
  {
    if s != [] {
      KeepSlugCharsAllKept(s[1..]);
      assert InSlugClass(s[0]);
      assert s == [s[0]] + s[1..];
    }
  }

  /** Length of the leading run of separators of `s`. */
  function SepRun(s: string): (n: nat)
    ensures n <= |s|
    ensures n < |s| ==> !IsSep(s[n])
    ensures s != [] && IsSep(s[0]) ==> n > 0
  {
    if s == [] || !IsSep(s[0]) then 0 else 1 + SepRun(s[1..])
  }

  /** `s` without its leading run of separators. */
  function DropSeps(s: string): (r: string)
    ensures r == [] || !IsSep(r[0])
    ensures s != [] && IsSep(s[0]) ==> |r| < |s|
  {
    s[SepRun(s)..]
  }

  predicate NoDoubleDash(s: string) {
    forall i :: 0 <= i < |s| - 1 ==> !(s[i] == '-' && s[i + 1] == '-')
  }

  /** `re.sub(r'[-\s]+', '-', s)`: every maximal run of separators becomes
      one '-'. */
  function CollapseSeps(s: string): string
    decreases |s|
  {
    if s == [] then []
    else if IsSep(s[0]) then "-" + CollapseSeps(DropSeps(s))
    else [s[0]] + CollapseSeps(s[1..])
  }

  /** Every character of the result is '-' or a non-separator of the input. */
  lemma {:induction false} CollapseSepsChars(s: string)
    ensures forall c :: c in CollapseSeps(s) ==> c == '-' || (c in s && !IsSep(c))
    decreases |s|
  {
    if s != [] {
      if IsSep(s[0]) {
        var t := DropSeps(s);
        CollapseSepsChars(t);
        assert t == s[SepRun(s)..];
        assert forall c :: c in t ==> c in s;
      } else {
        CollapseSepsChars(s[1..]);
        assert forall c :: c in s[1..] ==> c in s;
      }
    }
  }

  /** The result starts with '-' exactly when the input starts with a
      separator. */
  lemma CollapseSepsHead(s: string)
    ensures var r := CollapseSeps(s); (r != [] && r[0] == '-') <==> (s != [] && IsSep(s[0]))
  {
  }

  /** No two '-' in a row: a run of separators is dropped whole, so what
      follows its '-' is not one. */
  lemma {:induction false} CollapseSepsNoDoubleDash(s: string)
    ensures NoDoubleDash(CollapseSeps(s))
    decreases |s|
  {
    if s != [] {
      if IsSep(s[0]) {
        var t := DropSeps(s);
        CollapseSepsNoDoubleDash(t);
        CollapseSepsHead(t);
        var rt := CollapseSeps(t);
        assert CollapseSeps(s) == "-" + rt;
      } else {
        var t := s[1..];
        CollapseSepsNoDoubleDash(t);
        assert CollapseSeps(s) == [s[0]] + CollapseSeps(t);
      }
    }
  }

  /** `s.lstrip('-')`. */
  function StripDashLeft(s: string): (r: string)
    ensures r == [] || r[0] != '-'
    ensures |r| <= |s| && r == s[|s| - |r|..]
  {
    if s == [] || s[0] != '-' then s
    else
      var r := StripDashLeft(s[1..]);
      assert s[1..][|s| - 1 - |r|..] == s[|s| - |r|..];
      r
  }

  /** `s.rstrip('-')`. */
  function StripDashRight(s: string): (r: string)
    ensures r == [] || r[|r| - 1] != '-'
    ensures r <= s
  {
    if s == [] || s[|s| - 1] != '-' then s
    else StripDashRight(s[..|s| - 1])
  }

  /** `_slugify(title)`. */
  function Slugify(title: string): string {
    var s := CollapseSeps(KeepSlugChars(Lower(title)));
    StripDashRight(StripDashLeft(s))
  }

  /** The shape of a slug: lower-case, only word characters and '-', no two
      '-' in a row, and no '-' at either end. */
  predicate IsSlug(s: string) {
    NoUpper(s)
    && (forall i :: 0 <= i < |s| ==> IsWordChar(s[i]) || s[i] == '-')
    && NoDoubleDash(s)
    && (s == [] || (s[0] != '-' && s[|s| - 1] != '-'))
  }

  /** The part of the slug shape that survives taking a slice. */
  predicate SlugBody(s: string) {
    NoUpper(s) && (forall i :: 0 <= i < |s| ==> IsWordChar(s[i]) || s[i] == '-') && NoDoubleDash(s)
  }

  lemma SlugBodySlice(s: string, a: nat, b: nat)
    requires SlugBody(s) && a <= b <= |s|
    ensures SlugBody(s[a..b])
  {
    var t := s[a..b];
    assert forall i :: 0 <= i < |t| ==> t[i] == s[a + i];
  }

  lemma SlugCharNotSpace(c: char)
    requires IsWordChar(c) || c == '-'
    ensures !IsSpace(c)
  {
  }

  /** The kept characters of a lower-cased string, with their runs of
      separators collapsed, have the slug body shape. */
  lemma CollapsedSlugBody(title: string)
    ensures SlugBody(CollapseSeps(KeepSlugChars(Lower(title))))
  {
    var l := Lower(title);
    var k := KeepSlugChars(l);
    assert NoUpper(k) by {
      forall i | 0 <= i < |k| ensures !IsUpper(k[i]) {
        var j :| 0 <= j < |l| && l[j] == k[i];
      }
    }
    var c := CollapseSeps(k);
    CollapseSepsChars(k);
    CollapseSepsNoDoubleDash(k);
    forall i | 0 <= i < |c| ensures !IsUpper(c[i]) && (IsWordChar(c[i]) || c[i] == '-') {
      if c[i] != '-' {
        assert c[i] in c;
        var j :| 0 <= j < |k| && k[j] == c[i];
      }
    }
  }

  lemma StripLeftSlugBody(c: string)
    requires SlugBody(c)
    ensures SlugBody(StripDashLeft(c))
  {
    var left := StripDashLeft(c);
    SlugBodySlice(c, |c| - |left|, |c|);
  }

  lemma StripRightSlugBody(c: string)
    requires SlugBody(c)
    ensures SlugBody(StripDashRight(c))
  {
    var r := StripDashRight(c);
    assert r == c[..|r|];
    SlugBodySlice(c, 0, |r|);
  }

  lemma SlugBodyNoSpace(r: string)
    requires SlugBody(r)
    ensures forall i :: 0 <= i < |r| ==> !IsSpace(r[i])
  {
    forall i | 0 <= i < |r| ensures !IsSpace(r[i]) {
      SlugCharNotSpace(r[i]);
    }
  }

  /** Stripping the dashes at both ends of a slug body gives a slug. */
  lemma StripSlugBody(c: string)
    requires SlugBody(c)
    ensures IsSlug(StripDashRight(StripDashLeft(c)))
    ensures forall i :: 0 <= i < |StripDashRight(StripDashLeft(c))| ==> !IsSpace(StripDashRight(StripDashLeft(c))[i])
  {
    var left := StripDashLeft(c);
    StripLeftSlugBody(c);
    var r := StripDashRight(left);
    StripRightSlugBody(left);
    assert r != [] ==> r[0] == left[0];
    SlugBodyNoSpace(r);
  }

  /** The result of `_slugify` always has the slug shape; in particular it
      holds no whitespace. */
  lemma SlugifyIsSlug(title: string)
    ensures IsSlug(Slugify(title))
    ensures forall i :: 0 <= i < |Slugify(title)| ==> !IsSpace(Slugify(title)[i])
  {
    CollapsedSlugBody(title);
    StripSlugBody(CollapseSeps(KeepSlugChars(Lower(title))));
  }

  lemma {:induction false} CollapseSepsOfSlug(s: string)
    requires forall i :: 0 <= i < |s| ==> IsWordChar(s[i]) || s[i] == '-'
    requires NoDoubleDash(s)
    ensures CollapseSeps(s) == s
    decreases |s|
  {
    if s != [] {
      var t := s[1..];
      CollapseSepsOfSlug(t);
      assert s == [s[0]] + t;
      if s[0] == '-' {
        assert t != [] ==> t[0] == s[1] && !IsSep(t[0]);
        assert DropSeps(t) == t;
        assert DropSeps(s) == t;
        assert CollapseSeps(s) == "-" + CollapseSeps(t);
      } else {
        assert !IsSpace(s[0]);
        assert CollapseSeps(s) == [s[0]] + CollapseSeps(t);
      }
    }
  }

  /** Slugifying a slug gives it back. */
  lemma SlugifyOfSlug(s: string)
    requires IsSlug(s)
    ensures Slugify(s) == s
  {
    LowerOfLower(s);
    KeepSlugCharsAllKept(s);
    CollapseSepsOfSlug(s);
  }

  /** `_slugify` is idempotent. */
  lemma SlugifyIdempotent(title: string)
    ensures Slugify(Slugify(title)) == Slugify(title)
  {
    SlugifyIsSlug(title);
    SlugifyOfSlug(Slugify(title));
  }

  // ---------------------------------------------------------------------
  // _truncate_content

  /** `_truncate_content(content, max_words)`. */
  function TruncateContent(content: string, maxWords: nat): string {
    var words := Words(content);
    if |words| <= maxWords then content
    else JoinWords(words[..maxWords]) + "..."
  }

  /** Content of at most `maxWords` words comes back unchanged; longer
      content becomes its first `maxWords` words, joined by single spaces,
      followed by "...". */
  lemma TruncateSpec(content: string, maxWords: nat)
    ensures var ws := Words(content); var r := TruncateContent(content, maxWords);
      (|ws| <= maxWords ==> r == content)
      && (|ws| > maxWords ==>
            |r| >= 3 && r[|r| - 3..] == "..."
            && Words(r[..|r| - 3]) == ws[..maxWords]
            && r[..|r| - 3] == JoinWords(ws[..maxWords]))
  {
    var ws := Words(content);
    if |ws| > maxWords {
      var t := JoinWords(ws[..maxWords]);
      var r := t + "...";
      assert r[..|r| - 3] == t && r[|r| - 3..] == "...";
      WordsOfJoin(ws[..maxWords]);
    }
  }

  lemma WordsOfGlued(w: string, x: string)
    requires IsWord(w) && IsWord(x)
    ensures Words(w + x) == [w + x]
  {
    var g := w + x;
    assert IsWord(g) by {
      assert forall i :: 0 <= i < |g| ==> g[i] == (if i < |w| then w[i] else x[i - |w|]);
    }
    WordsOfWordThen(g, "");
    assert g + "" == g;
  }

  /** Splitting a join of words with a word glued to its end: the glued word
      becomes part of the last word. */
  lemma {:induction false} WordsOfJoinThen(ws: seq<string>, x: string)
    requires ws != [] && forall i :: 0 <= i < |ws| ==> IsWord(ws[i])
    requires IsWord(x)
    ensures Words(JoinWords(ws) + x) == ws[..|ws| - 1] + [ws[|ws| - 1] + x]
  {
    if |ws| == 1 {
      WordsOfGlued(ws[0], x);
    } else {
      var head, tail := ws[0], ws[1..];
      var y := JoinWords(tail) + x;
      assert JoinWords(ws) == head + " " + JoinWords(tail);
      assert JoinWords(ws) + x == head + (" " + y);
      WordsOfWordThen(head, " " + y);
      WordsAfterSpace(y);
      WordsOfJoinThen(tail, x);
      assert Words(JoinWords(ws) + x) == [head] + (tail[..|tail| - 1] + [tail[|tail| - 1] + x]);
      assert ws[..|ws| - 1] == [head] + tail[..|tail| - 1];
    }
  }

  lemma WordsAfterSpace(y: string)
    ensures Words(" " + y) == Words(y)
  {
    assert (" " + y)[1..] == y;
  }

  /** Truncating twice with the same bound is truncating once: the "..."
      sticks to the last kept word, so the word count does not grow. */
  lemma TruncateIdempotent(content: string, maxWords: nat)
    ensures TruncateContent(TruncateContent(content, maxWords), maxWords) == TruncateContent(content, maxWords)
  {
    var ws := Words(content);
    if |ws| > maxWords {
      var kept := ws[..maxWords];
      var t := JoinWords(kept) + "...";
      assert TruncateContent(content, maxWords) == t;
      assert IsWord("...");
      if maxWords == 0 {
        WordsOfWordThen("...", "");
        assert JoinWords(kept) == "";
        assert t == "..." + "";
        assert TruncateContent(t, 0) == JoinWords([]) + "...";
      } else {
        WordsOfJoinThen(kept, "...");
        assert |Words(t)| <= maxWords;
      }
    }
  }

  // ---------------------------------------------------------------------
  // _clean_content_for_hugo

  /** The index of the first `c` in `s`. */
  function FirstIndex(s: string, c: char): (r: Option<nat>)
    ensures r.None? ==> c !in s
    ensures r.Some? ==> r.value < |s| && s[r.value] == c && c !in s[..r.value]
  {
    if s == [] then None
    else if s[0] == c then Some(0)
    else
      var r := FirstIndex(s[1..], c);
      if r.None? then None
      else
        assert s[..r.value + 1] == [s[0]] + s[1..][..r.value];
        Some(r.value + 1)
  }

  /** The index of the last `c` in `s`. */
  function LastIndex(s: string, c: char): (r: Option<nat>)
    ensures r.None? ==> c !in s
    ensures r.Some? ==> r.value < |s| && s[r.value] == c && c !in s[r.value + 1..]
  {
    if s == [] then None
    else if s[|s| - 1] == c then Some(|s| - 1)
    else
      var r := LastIndex(s[..|s| - 1], c);
      if r.None? then None
      else
        assert s[r.value + 1..] == s[..|s| - 1][r.value + 1..] + [s[|s| - 1]];
        Some(r.value)
  }

  /** Where the tag `<[^>]+>` that starts `s` ends (its '>'), if one does:
      the first '>' after the '<', with at least one character between. */
  function TagEnd(s: string): (r: Option<nat>)
    ensures r.Some? ==> 2 <= r.value < |s| && s[0] == '<' && s[r.value] == '>' && '>' !in s[1..r.value]
  {
    if s == [] || s[0] != '<' then None
    else
      var j := FirstIndex(s[1..], '>');
      if j.None? || j.value == 0 then None
      else
        assert s[1..][..j.value] == s[1..j.value + 1];
        Some(j.value + 1)
  }

  /** `re.sub(r'<[^>]+>', '', s)`. */
  function RemoveTags(s: string): (r: string)
    ensures |r| <= |s|
    decreases |s|
  {
    if s == [] then []
    else
      var e := TagEnd(s);
      if e.Some? then RemoveTags(s[e.value + 1..])
      else [s[0]] + RemoveTags(s[1..])
  }

  /** Where the blank-line run `\n\s*\n` that starts `s` ends (its last
      '\n'), if one does: `\s*` is greedy, so the match ends at the last
      newline of the whitespace run after the first newline. */
  function BlankRunEnd(s: string): (r: Option<nat>)
    ensures r.Some? ==> 1 <= r.value < |s| && s[0] == '\n' && s[r.value] == '\n'
  {
    if s == [] || s[0] != '\n' then None
    else
      var n := SpaceRun(s[1..]);
      var j := LastIndex(s[1..][..n], '\n');
      if j.None? then None else Some(j.value + 1)
  }

  /** `re.sub(r'\n\s*\n', '\n\n', s)`. */
  function CollapseBlankLines(s: string): string
    decreases |s|
  {
    if s == [] then []
    else
      var e := BlankRunEnd(s);
      if e.Some? then "\n\n" + CollapseBlankLines(s[e.value + 1..])
      else [s[0]] + CollapseBlankLines(s[1..])
  }

  /** The phrases removed case-insensitively, in the order the alternation
      tries them. */
  const Artifacts: seq<string> := ["share this", "tweet this", "follow us", "subscribe", "newsletter"]

  /** `s` starts with the lower-case phrase `p`, ignoring case. */
  predicate StartsWithIgnoringCase(s: string, p: string) {
    |p| <= |s| && Lower(s[..|p|]) == p
  }

  /** The length of the first phrase of `ps` that starts `s`, if any. */
  function ArtifactAt(s: string, ps: seq<string>): (r: nat)
    ensures r <= |s|
    ensures r > 0 ==> exists p :: p in ps && p != [] && |p| == r && StartsWithIgnoringCase(s, p)
    ensures r == 0 ==> forall p :: p in ps && p != [] ==> !StartsWithIgnoringCase(s, p)
  {
    if ps == [] then 0
    else if ps[0] != [] && StartsWithIgnoringCase(s, ps[0]) then |ps[0]|
    else ArtifactAt(s, ps[1..])
  }

  /** `re.sub(r'Share this|Tweet this|Follow us|Subscribe|Newsletter', '', s,
      flags=re.IGNORECASE)`. */
  function RemoveArtifacts(s: string): (r: string)
    ensures |r| <= |s|
    decreases |s|
  {
    if s == [] then []
    else
      var n := ArtifactAt(s, Artifacts);
      if n > 0 then RemoveArtifacts(s[n..])
      else [s[0]] + RemoveArtifacts(s[1..])
  }

  /** `_clean_content_for_hugo(content)`: "" for empty content, otherwise
      tags removed, blank-line runs collapsed, artifacts removed and the
      result stripped; it never starts or ends with whitespace. */
  function CleanContent(content: string): (r: string)
    ensures content == "" ==> r == ""
    ensures r == [] || (!IsSpace(r[0]) && !IsSpace(r[|r| - 1]))
  {
    if content == "" then ""
    else Strip(RemoveArtifacts(CollapseBlankLines(RemoveTags(content))))
  }

  /** No phrase of `Artifacts` starts anywhere in `s`. */
  predicate NoArtifacts(s: string) {
    forall i :: 0 <= i < |s| ==> ArtifactAt(s[i..], Artifacts) == 0
  }

  lemma {:induction false} RemoveTagsPlain(s: string)
    requires '<' !in s
    ensures RemoveTags(s) == s
  {
    if s != [] {
      assert '<' !in s[1..];
      RemoveTagsPlain(s[1..]);
      assert s == [s[0]] + s[1..];
    }
  }

  lemma {:induction false} CollapseBlankLinesPlain(s: string)
    requires '\n' !in s
    ensures CollapseBlankLines(s) == s
  {
    if s != [] {
      assert '\n' !in s[1..];
      CollapseBlankLinesPlain(s[1..]);
      assert s == [s[0]] + s[1..];
    }
  }

  lemma {:induction false} RemoveArtifactsPlain(s: string)
    requires NoArtifacts(s)
    ensures RemoveArtifacts(s) == s
  {
    if s != [] {
      assert ArtifactAt(s[0..], Artifacts) == 0 && s[0..] == s;
      assert NoArtifacts(s[1..]) by {
        forall i | 0 <= i < |s[1..]| ensures ArtifactAt(s[1..][i..], Artifacts) == 0 {
          assert s[1..][i..] == s[i + 1..];
        }
      }
      RemoveArtifactsPlain(s[1..]);
      assert s == [s[0]] + s[1..];
    }
  }

  /** Text with no tag opener, no newline and no artifact phrase is only
      stripped. */
  lemma CleanPlainText(s: string)
    requires '<' !in s && '\n' !in s && NoArtifacts(s)
    ensures CleanContent(s) == Strip(s)
  {
    RemoveTagsPlain(s);
    CollapseBlankLinesPlain(s);
    RemoveArtifactsPlain(s);
  }

  /** The excerpt of an article in the report: its cleaned content, or its
      content, cleaned and cut to 150 words. */
  function Excerpt(a: Article): string {
    var text := if Truthy(a.cleanedContent) then a.cleanedContent.value
                else if a.content.Some? then a.content.value else "";
    TruncateContent(CleanContent(text), 150)
  }

  /** The excerpts of the report, one per article in the given order. */
  function Excerpts(arts: seq<Article>): seq<string> {
    seq(|arts|, i requires 0 <= i < |arts| => Excerpt(arts[i]))
  }

  // ---------------------------------------------------------------------
  // _generate_read_later_front_matter: the tag set

  /** The tag a feed's name contributes: lower-cased, spaces as '-'. */
  function FeedNameTag(f: Feed): string {
    ReplaceChar(Lower(f.name), ' ', '-')
  }

  const ReportTags: set<string> := {"rss", "read-later", "daily-report"}

  /** `set(ts)`. */
  function SetOf(ts: seq<string>): (r: set<string>)
    ensures forall t :: t in r <==> t in ts
  {
    set t | t in ts
  }

  /** The tags of the articles `arts`. */
  function ArticleTagSet(arts: seq<Article>): set<string> {
    if arts == [] then {}
    else ArticleTagSet(arts[..|arts| - 1]) + SetOf(arts[|arts| - 1].tags)
  }

  /** The tags of the feeds `feeds`. */
  function FeedTagSet(feeds: seq<Feed>): set<string> {
    if feeds == [] then {}
    else FeedTagSet(feeds[..|feeds| - 1]) + SetOf(feeds[|feeds| - 1].tags)
  }

  /** The name tags of the feeds `feeds`. */
  function NameTagSet(feeds: seq<Feed>): set<string> {
    if feeds == [] then {}
    else NameTagSet(feeds[..|feeds| - 1]) + {FeedNameTag(feeds[|feeds| - 1])}
  }

  /** `all_tags` of the front matter of a report on `arts` from `feeds`. */
  function FrontMatterTagsOf(arts: seq<Article>, feeds: seq<Feed>): set<string> {
    ArticleTagSet(arts) + FeedTagSet(feeds) + NameTagSet(feeds) + ReportTags
  }

  lemma {:induction false} ArticleTagSetMembers(arts: seq<Article>)
    ensures forall t :: t in ArticleTagSet(arts) <==> exists a :: a in arts && t in a.tags
  {
    if arts != [] {
      var init := arts[..|arts| - 1];
      ArticleTagSetMembers(init);
      assert arts == init + [arts[|arts| - 1]];
    }
  }

  lemma {:induction false} FeedTagSetMembers(feeds: seq<Feed>)
    ensures forall t :: t in FeedTagSet(feeds) <==> exists f :: f in feeds && t in f.tags
  {
    if feeds != [] {
      var init := feeds[..|feeds| - 1];
      FeedTagSetMembers(init);
      assert feeds == init + [feeds[|feeds| - 1]];
    }
  }

  lemma {:induction false} NameTagSetMembers(feeds: seq<Feed>)
    ensures forall t :: t in NameTagSet(feeds) <==> exists f :: f in feeds && t == FeedNameTag(f)
  {
    if feeds != [] {
      var init := feeds[..|feeds| - 1];
      NameTagSetMembers(init);
      assert feeds == init + [feeds[|feeds| - 1]];
    }
  }

  /** A tag is in the front matter exactly when it is a tag of an article,
      a tag of a feed, a feed's name tag, or one of "rss", "read-later" and
      "daily-report". */
  lemma FrontMatterTagsSpec(arts: seq<Article>, feeds: seq<Feed>, t: string)
    ensures t in FrontMatterTagsOf(arts, feeds) <==>
      (exists a :: a in arts && t in a.tags)
      || (exists f :: f in feeds && t in f.tags)
      || (exists f :: f in feeds && t == FeedNameTag(f))
      || t in ReportTags
  {
    ArticleTagSetMembers(arts);
    FeedTagSetMembers(feeds);
    NameTagSetMembers(feeds);
  }

  lemma NameTagsOfNames(feeds: seq<Feed>, names: seq<string>)
    requires |names| == |feeds| && forall j :: 0 <= j < |feeds| ==> names[j] == FeedNameTag(feeds[j])
    ensures SetOf(names) == NameTagSet(feeds)
  {
    NameTagSetMembers(feeds);
    forall n ensures n in SetOf(names) <==> n in NameTagSet(feeds) {
      if n in names {
        var j :| 0 <= j < |names| && names[j] == n;
        assert feeds[j] in feeds;
      }
      if n in NameTagSet(feeds) {
        var f :| f in feeds && n == FeedNameTag(f);
        var j :| 0 <= j < |feeds| && feeds[j] == f;
        assert names[j] == n;
      }
    }
  }

  /** The loops of `_generate_read_later_front_matter` that build
      `all_tags`. */
  method FrontMatterTags(articles: seq<Article>, feeds: seq<Feed>) returns (tags: set<string>)
    ensures tags == FrontMatterTagsOf(articles, feeds)
  {
    tags := {};
    for i := 0 to |articles|
      invariant tags == ArticleTagSet(articles[..i])
    {
      assert articles[..i + 1][..i] == articles[..i];
      tags := tags + SetOf(articles[i].tags);
    }
    assert articles[..|articles|] == articles;
    ghost var fromArticles := tags;
    for i := 0 to |feeds|
      invariant tags == fromArticles + FeedTagSet(feeds[..i])
    {
      assert feeds[..i + 1][..i] == feeds[..i];
      tags := tags + SetOf(feeds[i].tags);
    }
    assert feeds[..|feeds|] == feeds;
    ghost var fromFeeds := tags;
    var names := seq(|feeds|, j requires 0 <= j < |feeds| => FeedNameTag(feeds[j]));
    var fromNames := SetOf(names);
    NameTagsOfNames(feeds, names);
    tags := tags + fromNames;
    tags := tags + ReportTags;
  }

  // ---------------------------------------------------------------------
  // create_daily_read_later_report: grouping by feed

  /** The group an article goes to in the report. */
  function FeedTitle(a: Article): string {
    if "feed_title" in a.metadata then a.metadata["feed_title"] else "Unknown Feed"
  }

  /** The groups of the report, by feed title. */
  function GroupsOf(arts: seq<Article>): map<string, seq<Article>> {
    map k | k in Keys(arts, FeedTitle) :: WithKey(arts, FeedTitle, k)
  }

  /** The grouping loop of `create_daily_read_later_report`. */
  method GroupByFeedTitle(articles: seq<Article>) returns (titles: seq<string>, groups: map<string, seq<Article>>)
    ensures titles == Keys(articles, FeedTitle) && groups == GroupsOf(articles)
  {
    titles, groups := GroupBy(articles, FeedTitle);
  }

  /** Each article is in exactly one group, the one of its feed title; each
      group keeps the input order; the group sizes add up to the number of
      articles. */
  lemma GroupsOfSpec(arts: seq<Article>)
    ensures forall a :: a in arts ==> FeedTitle(a) in GroupsOf(arts)
    ensures forall k, a :: k in GroupsOf(arts) ==> (a in GroupsOf(arts)[k] <==> a in arts && FeedTitle(a) == k)
    ensures forall k :: k in GroupsOf(arts) ==> IsSubseq(GroupsOf(arts)[k], arts)
    ensures GroupSizes(Keys(arts, FeedTitle), arts, FeedTitle) == |arts|
  {
    var g := GroupsOf(arts);
    forall a | a in arts ensures FeedTitle(a) in g {
      WithKeyMembers(arts, FeedTitle, FeedTitle(a));
      if FeedTitle(a) !in Keys(arts, FeedTitle) {
        NoKeyNoGroup(arts, FeedTitle, FeedTitle(a));
      }
    }
    forall k | k in g ensures IsSubseq(g[k], arts) && forall a :: a in g[k] <==> a in arts && FeedTitle(a) == k {
      WithKeyMembers(arts, FeedTitle, k);
      WithKeyIsSubseq(arts, FeedTitle, k);
    }
    GroupsPartition(arts, FeedTitle);
  }

  // ---------------------------------------------------------------------
  // process_feeds_for_read_later

  /** What the report of a day is written from: the front-matter tags, the
      feed titles in order with their articles, the excerpt of each article,
      and the two counts of its summary line. */
  datatype ReportData = ReportData(
    tags: set<string>,
    titles: seq<string>,
    byFeed: map<string, seq<Article>>,
    excerpts: seq<string>,
    articleCount: nat,
    feedCount: nat)

  function ReportOf(arts: seq<Article>, feeds: seq<Feed>): ReportData {
    ReportData(FrontMatterTagsOf(arts, feeds), Keys(arts, FeedTitle), GroupsOf(arts), Excerpts(arts), |arts|, |feeds|)
  }

  /** `create_daily_read_later_report(articles, feeds)`: the report's data is
      computed and handed to `write`, which gives the file path or `None`
      when writing failed. */
  method CreateDailyReport(articles: seq<Article>, feeds: seq<Feed>, write: ReportData -> Option<string>)
    returns (path: Option<string>)
    ensures path == write(ReportOf(articles, feeds))
  {
    var tags := FrontMatterTags(articles, feeds);
    var titles, groups := GroupByFeedTitle(articles);
    path := write(ReportData(tags, titles, groups, Excerpts(articles), |articles|, |feeds|));
  }

  /** An article fetched from feed `f`, tagged with the feed's name and URL. */
  function Annotate(a: Article, f: Feed): (r: Article)
    ensures "feed_title" in r.metadata && r.metadata["feed_title"] == f.name
    ensures "feed_url" in r.metadata && r.metadata["feed_url"] == f.url
    ensures forall k :: k != "feed_title" && k != "feed_url" ==> (k in r.metadata <==> k in a.metadata)
    ensures forall k :: k != "feed_title" && k != "feed_url" && k in a.metadata ==> r.metadata[k] == a.metadata[k]
    ensures r.(metadata := a.metadata) == a
  {
    a.(metadata := a.metadata["feed_title" := f.name]["feed_url" := f.url])
  }

  /** The metadata loop over one feed's articles. */
  method AnnotateAll(articles: seq<Article>, f: Feed) returns (r: seq<Article>)
    ensures |r| == |articles| && forall j :: 0 <= j < |r| ==> r[j] == Annotate(articles[j], f)
  {
    r := [];
    for i := 0 to |articles|
      invariant |r| == i && forall j :: 0 <= j < i ==> r[j] == Annotate(articles[j], f)
    {
      r := r + [Annotate(articles[i], f)];
    }
  }

  function Annotated(arts: seq<Article>, f: Feed): (r: seq<Article>)
    ensures |r| == |arts|
  {
    seq(|arts|, j requires 0 <= j < |arts| => Annotate(arts[j], f))
  }

  /** The fetch of one feed: its articles, or `None` when it raised. */
  type Fetch = Feed -> Option<seq<Article>>

  /** What feed `f` adds to `all_articles`. */
  function Contribution(f: Feed, fetch: Fetch, cap: nat): seq<Article> {
    var got := fetch(f);
    if got.None? then [] else Annotated(Take(got.value, cap), f)
  }

  /** `all_articles` and `feeds_processed` after the loop over `feeds`. */
  function Collect(feeds: seq<Feed>, fetch: Fetch, cap: nat): (seq<Article>, nat) {
    if feeds == [] then ([], 0)
    else
      var (arts, n) := Collect(feeds[..|feeds| - 1], fetch, cap);
      var f := feeds[|feeds| - 1];
      if fetch(f).None? then (arts, n) else (arts + Contribution(f, fetch, cap), n + 1)
  }

  /** At most one processed feed per feed, and at most `cap` articles per
      feed. */
  lemma {:induction false} CollectBounds(feeds: seq<Feed>, fetch: Fetch, cap: nat)
    ensures Collect(feeds, fetch, cap).1 <= |feeds|
    ensures |Collect(feeds, fetch, cap).0| <= cap * |feeds|
  {
    if feeds != [] {
      var init := feeds[..|feeds| - 1];
      CollectBounds(init, fetch, cap);
      var r, r0 := Collect(feeds, fetch, cap), Collect(init, fetch, cap);
      var c := Contribution(feeds[|feeds| - 1], fetch, cap);
      assert |c| <= cap;
      assert r.1 <= r0.1 + 1 && |r.0| <= |r0.0| + |c|;
      MulStep(cap, |init|);
    }
  }

  lemma MulStep(a: nat, n: nat)
    ensures a * (n + 1) == a * n + a
  {
  }

  /** The article `a` is one of the first `cap` articles fetched from one of
      `feeds`, tagged with that feed. */
  ghost predicate FromFeed(a: Article, feeds: seq<Feed>, fetch: Fetch, cap: nat) {
    exists f, b :: f in feeds && fetch(f).Some? && b in Take(fetch(f).value, cap) && a == Annotate(b, f)
  }

  lemma {:induction false} CollectFromFeeds(feeds: seq<Feed>, fetch: Fetch, cap: nat)
    ensures forall a :: a in Collect(feeds, fetch, cap).0 ==> FromFeed(a, feeds, fetch, cap)
  {
    if feeds != [] {
      var init := feeds[..|feeds| - 1];
      var f := feeds[|feeds| - 1];
      CollectFromFeeds(init, fetch, cap);
      forall a | a in Collect(feeds, fetch, cap).0 ensures FromFeed(a, feeds, fetch, cap) {
        if a in Collect(init, fetch, cap).0 {
          var g, b :| g in init && fetch(g).Some? && b in Take(fetch(g).value, cap) && a == Annotate(b, g);
          assert g in feeds;
        } else {
          var arts := Take(fetch(f).value, cap);
          var j :| 0 <= j < |arts| && Annotated(arts, f)[j] == a;
          assert arts[j] in arts && a == Annotate(arts[j], f);
        }
      }
    }
  }

  /** When every fetch raises, nothing is collected and no feed counts. */
  lemma {:induction false} CollectNothingFetched(feeds: seq<Feed>, fetch: Fetch, cap: nat)
    requires forall f :: f in feeds ==> fetch(f).None?
    ensures Collect(feeds, fetch, cap) == ([], 0)
  {
    if feeds != [] {
      CollectNothingFetched(feeds[..|feeds| - 1], fetch, cap);
    }
  }

  /** The dictionary `process_feeds_for_read_later` returns. */
  datatype ReadLaterResult = ReadLaterResult(
    success: bool,
    message: string,
    articlesProcessed: nat,
    feedsProcessed: nat,
    reportCreated: bool,
    reportPath: Option<string>)

  /** `process_feeds_for_read_later` over the `feeds` that `get_feeds`
      returned (it catches its own errors and answers `[]`).  `outerError`
      is an exception that escapes the body of the outer `try` and reaches
      its `except`; the error result does not depend on where it was raised,
      so the model takes it before any feed is read. */
  function ReadLaterOf(outerError: Option<string>, feeds: seq<Feed>, fetch: Fetch, cap: nat,
                       write: ReportData -> Option<string>): ReadLaterResult
  {
    if outerError.Some? then ReadLaterResult(false, "Error processing feeds: " + outerError.value, 0, 0, false, None)
    else if feeds == [] then ReadLaterResult(false, "No feeds found", 0, 0, false, None)
    else
      var (arts, n) := Collect(feeds, fetch, cap);
      if arts == [] then ReadLaterResult(false, "No articles found from any feeds", 0, n, false, None)
      else
        var path := write(ReportOf(arts, feeds));
        ReadLaterResult(true,
          "Processed " + NatToString(n) + " feeds, created report with " + NatToString(|arts|) + " articles",
          |arts|, n, Truthy(path), path)
  }

  /** The counts are bounded by the feeds and the per-feed cap; the run
      succeeds exactly when some article was collected; no feeds gives
      "No feeds found"; a failed run creates no report. */
  lemma ReadLaterSpec(outerError: Option<string>, feeds: seq<Feed>, fetch: Fetch, cap: nat,
                      write: ReportData -> Option<string>)
    ensures var r := ReadLaterOf(outerError, feeds, fetch, cap, write);
      r.feedsProcessed <= |feeds|
      && r.articlesProcessed <= cap * |feeds|
      && (r.success <==> outerError.None? && Collect(feeds, fetch, cap).0 != [])
      && (!r.success ==> r.articlesProcessed == 0 && !r.reportCreated)
      && (outerError.None? && feeds == [] ==> r == ReadLaterResult(false, "No feeds found", 0, 0, false, None))
      && (r.success ==> r.articlesProcessed == |Collect(feeds, fetch, cap).0|
                        && r.reportCreated == Truthy(write(ReportOf(Collect(feeds, fetch, cap).0, feeds))))
  {
    CollectBounds(feeds, fetch, cap);
  }

  /** When every feed's fetch raises, the run reports "No articles found from
      any feeds" with no feed processed. */
  lemma ReadLaterNothingFetched(feeds: seq<Feed>, fetch: Fetch, cap: nat, write: ReportData -> Option<string>)
    requires feeds != [] && forall f :: f in feeds ==> fetch(f).None?
    ensures ReadLaterOf(None, feeds, fetch, cap, write)
      == ReadLaterResult(false, "No articles found from any feeds", 0, 0, false, None)
  {
    CollectNothingFetched(feeds, fetch, cap);
  }

  /** The loop over the feeds: fetch, cap, tag, `all_articles.extend` and
      count the feed; a fetch that raises skips the feed. */
  method CollectArticles(feeds: seq<Feed>, fetch: Fetch, cap: nat) returns (all: seq<Article>, processed: nat)
    ensures (all, processed) == Collect(feeds, fetch, cap)
  {
    all, processed := [], 0;
    for i := 0 to |feeds|
      invariant (all, processed) == Collect(feeds[..i], fetch, cap)
    {
      assert feeds[..i + 1][..i] == feeds[..i];
      var got := fetch(feeds[i]);
      if got.Some? {
        var arts := AnnotateAll(Take(got.value, cap), feeds[i]);
        assert arts == Contribution(feeds[i], fetch, cap);
        all := all + arts;
        processed := processed + 1;
      }
    }
    assert feeds[..|feeds|] == feeds;
  }

  /** `process_feeds_for_read_later(db, max_articles_per_feed)`: `get_feeds`
      reads the active feeds of `db`; `outerError` is an exception caught by
      the outer `except`; `fetch` stands for the RSS fetcher and `write` for
      the report file. */
  method ProcessFeedsForReadLater(db: Database, outerError: Option<string>, fetch: Fetch, cap: nat,
                                  write: ReportData -> Option<string>) returns (r: ReadLaterResult)
    ensures r == ReadLaterOf(outerError, ActiveFeeds(db.feeds), fetch, cap, write)
  {
    if outerError.Some? {
      return ReadLaterResult(false, "Error processing feeds: " + outerError.value, 0, 0, false, None);
    }
    var feeds := ActiveFeeds(db.feeds);
    if feeds == [] {
      return ReadLaterResult(false, "No feeds found", 0, 0, false, None);
    }
    var all, processed := CollectArticles(feeds, fetch, cap);
    if all == [] {
      return ReadLaterResult(false, "No articles found from any feeds", 0, processed, false, None);
    }
    var path := CreateDailyReport(all, feeds, write);
    r := ReadLaterResult(true,
      "Processed " + NatToString(processed) + " feeds, created report with " + NatToString(|all|) + " articles",
      |all|, processed, Truthy(path), path);
  }
}
