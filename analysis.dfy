/** `printTagStats`: the figures the collector reports about a labelled corpus. The console
    formatting and the random sample article of each row are not modelled; the figures are. */
module Analysis {
  import opened Wrappers
  import opened Seqs
  import opened Text
  import opened Articles
  import opened Tagging
  import opened Frequency

  /** Words the keyword report never lists. */
  const IGNORED_WORDS: seq<string> := [
    ">", "the", "to", "mal", "of", "and", "that", "[die", "for", "is", "-", "with", "by",
    "paar", "as", "[der", "it", "eigentlich", "not", "[in", "are", "halt", "from", "their",
    "on", "oh", "be", "kennt", "raus", "heißt", "lassen", "said", "more", "have", "stellt",
    "[hier", "einfach", "[das", "or", "sagen", "has", "this", "at", "fall", "—", "no", "after",
    "they", "frage", "new", "bloß", "who", "us", "but"
  ]

  /** `a.tags?.length || 0`: the length of the tag list, sentinel included; 0 when undefined. */
  function TagLength(a: Article): nat
  {
    if a.tags.Some? then |a.tags.value| else 0
  }

  /** `Math.max(...articles.map(a => a.tags?.length || 0))`; None stands for the `-Infinity`
      of an empty corpus. */
  function MaxTags(articles: seq<Article>): (r: Option<nat>)
    ensures r.None? <==> articles == []
    ensures r.Some? ==> forall a :: a in articles ==> TagLength(a) <= r.value
    ensures r.Some? ==> exists a :: a in articles && TagLength(a) == r.value
  {
    if articles == [] then None
    else
      var rest := MaxTags(articles[1..]);
      assert forall a :: a in articles[1..] ==> a in articles;
      if rest.None? then
        assert articles == [articles[0]];
        Some(TagLength(articles[0]))
      else if TagLength(articles[0]) >= rest.value then Some(TagLength(articles[0]))
      else Some(rest.value)
  }

  predicate HasTags(a: Article)
  {
    a.tags.Some?
  }

  /** `a => a.tags?.filter(t => t !== 'notag').length === count`: an article whose tags are
      undefined has no count and is never selected. */
  function CountIs(count: nat): Article -> bool
  {
    (a: Article) => a.tags.Some? && |RealTags(a.tags.value)| == count
  }

  /** Articles whose count of real tags lies in `lo..hi`. */
  function CountBetween(lo: nat, hi: int): Article -> bool
  {
    (a: Article) => a.tags.Some? && lo <= |RealTags(a.tags.value)| <= hi
  }

  /** `getArticlesByTagCount(count)`. */
  function WithTagCount(articles: seq<Article>, count: nat): seq<Article>
  {
    Filter(articles, CountIs(count))
  }

  /** `a => a.tags?.includes(tag)`. */
  function Carries(tag: string): Article -> bool
  {
    (a: Article) => a.tags.Some? && tag in a.tags.value
  }

  /** `getArticlesByTag(tag)`. */
  function WithTag(articles: seq<Article>, tag: string): seq<Article>
  {
    Filter(articles, Carries(tag))
  }

  /** `a.tags?.filter(t => t !== 'notag').length || 0 > 0`, which parses as
      `length || (0 > 0)`: the articles with at least one real tag. */
  predicate IsTagged(a: Article)
  {
    a.tags.Some? && |RealTags(a.tags.value)| != 0
  }

  /** One histogram row: a count of real tags and how many articles have it. */
  type HistogramRow = (nat, nat)

  /** The rows for the counts `hi` down to `lo`, in the order they are printed. */
  function Buckets(articles: seq<Article>, hi: nat, lo: nat): seq<HistogramRow>
    decreases hi + 1 - lo
  {
    if lo > hi then []
    else Buckets(articles, hi, lo + 1) + [(lo, |WithTagCount(articles, lo)|)]
  }

  /** The histogram `for (let i = maxTags; i >= 0; i--)` prints; none for an empty corpus. */
  function Histogram(articles: seq<Article>): seq<HistogramRow>
  {
    match MaxTags(articles)
    case None => []
    case Some(top) => Buckets(articles, top, 0)
  }

  /** The sum of the article counts of some rows. */
  function Total(rows: seq<HistogramRow>): nat
  {
    if rows == [] then 0 else Total(rows[..|rows| - 1]) + rows[|rows| - 1].1
  }

  lemma {:induction false} BucketsCount(articles: seq<Article>, hi: nat, lo: nat)
    requires lo <= hi + 1
    ensures Total(Buckets(articles, hi, lo)) == |Filter(articles, CountBetween(lo, hi))|
    decreases hi + 1 - lo
  {
    var rows := Buckets(articles, hi, lo);
    if lo > hi {
      FilterDropsAll(articles, CountBetween(lo, hi));
    } else {
      BucketsCount(articles, hi, lo + 1);
      assert rows[..|rows| - 1] == Buckets(articles, hi, lo + 1);
      FilterSplit(articles, CountBetween(lo, hi), CountIs(lo), CountBetween(lo + 1, hi));
    }
  }

  /** Every article with a tag list lands in exactly one row of the histogram, whatever the
      lengths of the lists; an article whose tags are undefined lands in none. */
  lemma HistogramTotal(articles: seq<Article>)
    ensures Total(Histogram(articles)) == |Filter(articles, HasTags)|
  {
    var top := MaxTags(articles);
    if top.Some? {
      BucketsCount(articles, top.value, 0);
      forall a | a in articles
        ensures CountBetween(0, top.value)(a) == HasTags(a)
      {
        if a.tags.Some? {
          assert |RealTags(a.tags.value)| <= TagLength(a);
        }
      }
      FilterSame(articles, CountBetween(0, top.value), HasTags);
    }
  }

  /** Once every article is labelled, the histogram rows add up to the whole corpus. */
  lemma LabelledHistogramTotal(rules: seq<TagRule>, articles: seq<Article>)
    ensures Total(Histogram(ApplyAll(rules, articles))) == |articles|
  {
    var labelled := ApplyAll(rules, articles);
    HistogramTotal(labelled);
    FilterKeepsAll(labelled, HasTags);
  }

  /** The untagged and the tagged selections split the articles that have a tag list. */
  lemma SelectionsPartition(articles: seq<Article>)
    ensures |WithTagCount(articles, 0)| + |Filter(articles, IsTagged)| == |Filter(articles, HasTags)|
  {
    FilterSplit(articles, HasTags, CountIs(0), IsTagged);
  }

  /** After labelling with a table that does not use the sentinel as a name, an article counts
      zero real tags exactly when no rule matches its text, and carries a tag name exactly when
      that rule name is among its matches. */
  lemma LabelledCounts(rules: seq<TagRule>, articles: seq<Article>, tag: string)
    requires SentinelFree(rules) && tag != NOTAG
    ensures forall i :: 0 <= i < |articles| ==>
      (CountIs(0)(ApplyAll(rules, articles)[i]) <==> GetTags(rules, articles[i].text) == [])
    ensures forall i :: 0 <= i < |articles| ==>
      (Carries(tag)(ApplyAll(rules, articles)[i]) <==> tag in GetTags(rules, articles[i].text))
  {
    forall i | 0 <= i < |articles|
      ensures CountIs(0)(ApplyAll(rules, articles)[i]) <==> GetTags(rules, articles[i].text) == []
      ensures Carries(tag)(ApplyAll(rules, articles)[i]) <==> tag in GetTags(rules, articles[i].text)
    {
      RealTagsAreMatches(rules, articles[i].text);
    }
  }

  /** `a => rule matches a.text`: the articles a tag rule finds. */
  function FoundBy(rule: TagRule): Article -> bool
  {
    (a: Article) => Matches(rule, Lower(a.text))
  }

  /** After labelling with a table of distinct names none of which is the sentinel, the count
      printed for a tag is the number of articles whose lowered text contains one of its
      keywords. */
  lemma {:induction false} LabelledTagCount(rules: seq<TagRule>, articles: seq<Article>, j: nat)
    requires SentinelFree(rules) && j < |rules|
    requires forall i, k :: 0 <= i < k < |rules| ==> rules[i].name != rules[k].name
    ensures |WithTag(ApplyAll(rules, articles), rules[j].name)| == |Filter(articles, FoundBy(rules[j]))|
  {
    if articles != [] {
      var labelled := ApplyAll(rules, articles);
      assert labelled[1..] == ApplyAll(rules, articles[1..]);
      LabelledTagCount(rules, articles[1..], j);
      var a := articles[0];
      GetTagsMembership(rules, a.text, rules[j].name);
      assert Carries(rules[j].name)(labelled[0]) <==> rules[j].name in GetTags(rules, a.text);
    }
  }

  /** `for (let i = maxTags; i >= 0; i--)`: one row per count of real tags, from `hi` down to 0. */
  method BucketRows(articles: seq<Article>, hi: nat) returns (rows: seq<HistogramRow>)
    ensures rows == Buckets(articles, hi, 0)
  {
    rows := [];
    var i: int := hi;
    while i >= 0
      invariant -1 <= i <= hi
      invariant rows == Buckets(articles, hi, i + 1)
    {
      rows := rows + [(i, |WithTagCount(articles, i)|)];
      i := i - 1;
    }
  }

  /** `printTagStats`' first part: the longest tag list bounds the histogram, and an empty
      corpus (`Math.max()` is `-Infinity`) has no rows. */
  method TagHistogram(articles: seq<Article>) returns (rows: seq<HistogramRow>)
    ensures rows == Histogram(articles)
  {
    var top := MaxTags(articles);
    if top.Some? {
      rows := BucketRows(articles, top.value);
    } else {
      rows := [];
    }
  }

  /** `printTagStats`' second loop: for each tag name of the table, in table order, the number
      of articles carrying it. */
  method TagCounts(articles: seq<Article>, rules: seq<TagRule>) returns (counts: seq<(string, nat)>)
    ensures |counts| == |rules|
    ensures forall j :: 0 <= j < |rules| ==>
      counts[j].0 == rules[j].name && counts[j].1 == |WithTag(articles, rules[j].name)|
  {
    counts := [];
    for j := 0 to |rules|
      invariant |counts| == j
      invariant forall k :: 0 <= k < j ==>
        counts[k].0 == rules[k].name && counts[k].1 == |WithTag(articles, rules[k].name)|
    {
      counts := counts + [(rules[j].name, |WithTag(articles, rules[j].name)|)];
    }
  }

  predicate NotIgnored(w: string)
  {
    w !in IGNORED_WORDS
  }

  function NotIn(words: seq<string>): string -> bool
  {
    (w: string) => w !in words
  }

  /** `articles.map(a => a.text)`. */
  function Texts(articles: seq<Article>): (r: seq<string>)
    ensures |r| == |articles|
  {
    seq(|articles|, i requires 0 <= i < |articles| => articles[i].text)
  }

  /** `wordsOfUntagged`: the keywords of the articles without a real tag, joined by spaces,
      less the ignored words. */
  function UntaggedWords(articles: seq<Article>, extract: string -> seq<string>): seq<string>
  {
    Filter(extract(JoinSpace(Texts(WithTagCount(articles, 0)))), NotIgnored)
  }

  /** `wordsOfTagged`: the keywords of the articles with at least one real tag. */
  function TaggedWords(articles: seq<Article>, extract: string -> seq<string>): seq<string>
  {
    extract(JoinSpace(Texts(Filter(articles, IsTagged))))
  }

  /** The two word tables of `printTagStats`: the 50 most frequent keywords of the untagged
      articles, and the 50 most frequent of those that no tagged article mentions. */
  method CommonWords(articles: seq<Article>, extract: string -> seq<string>)
    returns (remaining: seq<Entry>, gaps: seq<Entry>)
    ensures remaining == Top(UntaggedWords(articles, extract), 0, 50)
    ensures gaps == Top(Filter(UntaggedWords(articles, extract), NotIn(TaggedWords(articles, extract))), 0, 50)
    ensures |remaining| <= 50 && |gaps| <= 50
    ensures forall i :: 0 <= i < |remaining| ==>
      remaining[i].0 !in IGNORED_WORDS && remaining[i].0 in UntaggedWords(articles, extract)
      && remaining[i].1 == Occurrences(UntaggedWords(articles, extract), remaining[i].0)
    ensures forall i :: 0 <= i < |gaps| ==>
      gaps[i].0 !in IGNORED_WORDS && gaps[i].0 !in TaggedWords(articles, extract)
      && gaps[i].0 in UntaggedWords(articles, extract)
  {
    var untagged := UntaggedWords(articles, extract);
    FilterMembers(extract(JoinSpace(Texts(WithTagCount(articles, 0)))), NotIgnored);
    remaining := CountFreq(untagged, 0, 50);
    var tagged := TaggedWords(articles, extract);
    var unmentioned := Filter(untagged, NotIn(tagged));
    FilterMembers(untagged, NotIn(tagged));
    gaps := CountFreq(unmentioned, 0, 50);
  }

  /** What `printTagStats` reports. */
  datatype Report = Report(
    histogram: seq<HistogramRow>,
    tagCounts: seq<(string, nat)>,
    remaining: seq<Entry>,
    gaps: seq<Entry>)
}
