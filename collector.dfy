/** The `Fefe` collector: the article corpus and the cache of fetched months, grown month
    by month from the archive, labelled in place, and written to and read from a data file. */
module Collector {
  import opened Wrappers
  import opened Seqs
  import opened Articles
  import opened Tagging
  import opened Months
  import opened Pages
  import opened Frequency
  import opened Analysis

  /** What the data file holds: the article list and the keys of the months already fetched. */
  datatype Corpus = Corpus(articles: seq<Article>, months: seq<string>)

  /** How an asynchronous step ends: normally, or with the error it throws. */
  datatype Outcome = Done | Failed(error: Error)

  /** The archive as the collector sees it: the page served for a month key
      (`fetch(FEFE_BASE + '/?mon=' + key)`), or None when the request fails. */
  type Archive = string -> Option<Page>

  /** The effect of `fetchMonth(year, month)` on the corpus: nothing when the month key is
      cached; otherwise the page's articles in reverse document order are appended and the
      key is recorded, unless fetching or parsing the page throws, which changes nothing. */
  function FetchMonthSpec(c: Corpus, year: int, month: int, archive: Archive): (Corpus, Outcome)
  {
    var mon := GetMon(year, month);
    if mon in c.months then (c, Done)
    else match archive(mon)
      case None => (c, Failed(FetchFailed))
      case Some(page) =>
        if !WellFormed(page) then (c, Failed(MalformedPage))
        else (Corpus(c.articles + Reverse(PageArticles(page)), c.months + [mon]), Done)
  }

  /** The months of `probes` fetched one after the other, stopping at the first failure. */
  function Ingest(c: Corpus, probes: seq<(int, int)>, archive: Archive): (Corpus, Outcome)
    decreases |probes|
  {
    if probes == [] then (c, Done)
    else
      var step := FetchMonthSpec(c, probes[0].0, probes[0].1, archive);
      if step.1.Failed? then step else Ingest(step.0, probes[1..], archive)
  }

  lemma IngestFirst(c: Corpus, p: (int, int), rest: seq<(int, int)>, archive: Archive)
    ensures var step := FetchMonthSpec(c, p.0, p.1, archive);
      Ingest(c, [p] + rest, archive) == if step.1.Failed? then step else Ingest(step.0, rest, archive)
  {
    assert ([p] + rest)[0] == p && ([p] + rest)[1..] == rest;
  }

  /** One step of a run over a month range: the first month, then the rest of the range. */
  lemma IngestRangeStep(c: Corpus, year: int, month: int, endYear: int, endMonth: int, archive: Archive)
    requires 0 <= month < 12 && NotAfter(year, month, endYear, endMonth)
    ensures var step := FetchMonthSpec(c, year, month, archive);
      var next := Next(year, month);
      Ingest(c, MonthRange(year, month, endYear, endMonth), archive)
        == if step.1.Failed? then step else Ingest(step.0, MonthRange(next.0, next.1, endYear, endMonth), archive)
  {
    var next := Next(year, month);
    IngestFirst(c, (year, month), MonthRange(next.0, next.1, endYear, endMonth), archive);
  }

  /** Moving the first month of the remaining range onto the probed prefix. */
  lemma ProbeStep<T>(probed: seq<T>, p: T, rest: seq<T>, all: seq<T>)
    requires all == probed + ([p] + rest)
    ensures all == (probed + [p]) + rest && probed + [p] <= all
  {
  }

  /** Fetching a month a second time changes nothing: the first call either cached the key or
      changed nothing. After a failed first call the second one fails the same way because the
      archive answers a key the same way every time. */
  lemma FetchMonthIdempotent(c: Corpus, year: int, month: int, archive: Archive)
    ensures var first := FetchMonthSpec(c, year, month, archive);
      FetchMonthSpec(first.0, year, month, archive) == first
  {
  }

  /** A fetched month only ever appends: old articles and old month keys stay in front, and the
      articles added are exactly the page's, last first, once the key was new. */
  lemma FetchMonthAppends(c: Corpus, year: int, month: int, archive: Archive)
    ensures var r := FetchMonthSpec(c, year, month, archive).0;
      && c.articles <= r.articles && c.months <= r.months
      && |r.months| <= |c.months| + 1
      && (GetMon(year, month) in c.months ==> r == c)
  {
    var mon := GetMon(year, month);
    if mon !in c.months && archive(mon).Some? && WellFormed(archive(mon).value) {
      var added := Reverse(PageArticles(archive(mon).value));
      assert c.articles <= c.articles + added;
      assert c.months <= c.months + [mon];
    }
  }

  /** The month list stays free of duplicates: a key is only recorded when it is absent. */
  lemma FetchMonthKeepsMonthsDistinct(c: Corpus, year: int, month: int, archive: Archive)
    requires Distinct(c.months)
    ensures Distinct(FetchMonthSpec(c, year, month, archive).0.months)
  {
  }

  /** Over a run, the corpus only grows at the end and the month list keeps its distinctness. */
  lemma {:induction false} IngestAppends(c: Corpus, probes: seq<(int, int)>, archive: Archive)
    ensures var r := Ingest(c, probes, archive).0;
      c.articles <= r.articles && c.months <= r.months
    ensures Distinct(c.months) ==> Distinct(Ingest(c, probes, archive).0.months)
    decreases |probes|
  {
    if probes != [] {
      var step := FetchMonthSpec(c, probes[0].0, probes[0].1, archive);
      FetchMonthAppends(c, probes[0].0, probes[0].1, archive);
      if Distinct(c.months) {
        FetchMonthKeepsMonthsDistinct(c, probes[0].0, probes[0].1, archive);
      }
      if step.1.Done? {
        IngestAppends(step.0, probes[1..], archive);
      }
    }
  }

  /** After a run that completes, every probed month is cached. */
  lemma {:induction false} IngestCachesAll(c: Corpus, probes: seq<(int, int)>, archive: Archive)
    requires Ingest(c, probes, archive).1.Done?
    ensures forall i :: 0 <= i < |probes| ==>
      GetMon(probes[i].0, probes[i].1) in Ingest(c, probes, archive).0.months
    decreases |probes|
  {
    if probes != [] {
      var step := FetchMonthSpec(c, probes[0].0, probes[0].1, archive);
      var r := Ingest(c, probes, archive).0;
      IngestCachesAll(step.0, probes[1..], archive);
      IngestAppends(step.0, probes[1..], archive);
      assert GetMon(probes[0].0, probes[0].1) in step.0.months;
      forall i | 0 < i < |probes|
        ensures GetMon(probes[i].0, probes[i].1) in r.months
      {
        assert probes[i] == probes[1..][i - 1];
      }
    }
  }

  /** A run over months that are all cached changes nothing and makes no request. */
  lemma {:induction false} IngestCachedIsNoOp(c: Corpus, probes: seq<(int, int)>, archive: Archive)
    requires forall i :: 0 <= i < |probes| ==> GetMon(probes[i].0, probes[i].1) in c.months
    ensures Ingest(c, probes, archive) == (c, Done)
    decreases |probes|
  {
    if probes != [] {
      IngestCachedIsNoOp(c, probes[1..], archive);
    }
  }

  /** Two complete runs over the same months leave the corpus as one run does. */
  lemma IngestIdempotent(c: Corpus, probes: seq<(int, int)>, archive: Archive)
    requires Ingest(c, probes, archive).1.Done?
    ensures var once := Ingest(c, probes, archive).0;
      Ingest(once, probes, archive) == (once, Done)
  {
    IngestCachesAll(c, probes, archive);
    IngestCachedIsNoOp(Ingest(c, probes, archive).0, probes, archive);
  }

  class Fefe {
    var articles: seq<Article>
    var months: seq<string>
    /** The content of `./data/data.json`: None when the file is missing or does not parse. */
    var dataFile: Option<Corpus>

    function Current(): Corpus
      reads this
    {
      Corpus(articles, months)
    }

    /** `new Fefe()`: an empty corpus, whatever the data file holds. */
    constructor (dataFile: Option<Corpus>)
      ensures articles == [] && months == [] && this.dataFile == dataFile
    {
      articles := [];
      months := [];
      this.dataFile := dataFile;
    }

    /** `load`: take the corpus from the data file; a missing or unreadable file is caught
        and leaves the corpus as it is. */
    method Load()
      modifies this
      ensures dataFile == old(dataFile)
      ensures dataFile.Some? ==> Current() == dataFile.value
      ensures dataFile.None? ==> Current() == old(Current())
    {
      if dataFile.Some? {
        articles := dataFile.value.articles;
        months := dataFile.value.months;
      }
    }

    /** `store`: write the whole corpus to the data file. */
    method Store()
      modifies this`dataFile
      ensures dataFile == Some(Current())
    {
      dataFile := Some(Current());
    }

    /** `fetchMonth(year, month)`. */
    method FetchMonth(year: int, month: int, archive: Archive) returns (outcome: Outcome)
      modifies this`articles, this`months
      ensures (Current(), outcome) == FetchMonthSpec(old(Current()), year, month, archive)
      ensures GetMon(year, month) in old(months) ==>
        articles == old(articles) && months == old(months) && outcome == Done
    {
      var mon := GetMon(year, month);
      if mon in months {
        return Done;
      }
      var response := archive(mon);
      if response.None? {
        return Failed(FetchFailed);
      }
      var parsed := ParseHtml(response.value);
      if parsed.Failure? {
        return Failed(parsed.error);
      }
      articles := articles + Reverse(parsed.value);
      months := months + [mon];
      outcome := Done;
    }

    /** `fetchSince(year, month)`: fetch every month from (year, month) up to the current month
        (endYear, endMonth), then store. `day.set('month', month).set('year', year)` lets
        Date.setMonth carry whole years, then overwrites the year: the walk starts at
        (year, month mod 12). A failing month aborts the run before the store. */
    method FetchSince(year: int, month: int, endYear: int, endMonth: int, archive: Archive)
      returns (probed: seq<(int, int)>, outcome: Outcome)
      modifies this
      ensures var run := Ingest(old(Current()), MonthRange(year, month % 12, endYear, endMonth), archive);
        Current() == run.0 && outcome == run.1
      ensures probed <= MonthRange(year, month % 12, endYear, endMonth)
      ensures outcome.Done? ==> probed == MonthRange(year, month % 12, endYear, endMonth)
      ensures dataFile == if outcome.Done? then Some(Current()) else old(dataFile)
    {
      var y, m := year, month % 12;
      ghost var all := MonthRange(year, month % 12, endYear, endMonth);
      probed := [];
      while NotAfter(y, m, endYear, endMonth)
        invariant 0 <= m < 12
        invariant all == probed + MonthRange(y, m, endYear, endMonth)
        invariant Ingest(old(Current()), all, archive)
          == Ingest(Current(), MonthRange(y, m, endYear, endMonth), archive)
        invariant dataFile == old(dataFile)
        decreases endYear - y, 11 - m
      {
        var next := Next(y, m);
        IngestRangeStep(Current(), y, m, endYear, endMonth, archive);
        ProbeStep(probed, (y, m), MonthRange(next.0, next.1, endYear, endMonth), all);
        probed := probed + [(y, m)];
        outcome := FetchMonth(y, m, archive);
        if outcome.Failed? {
          return;
        }
        y, m := next.0, next.1;
      }
      outcome := Done;
      Store();
    }

    /** `applyTags`: give every article the tags its text matches, or the sentinel. */
    method ApplyTags(rules: seq<TagRule>)
      modifies this`articles
      ensures articles == ApplyAll(rules, old(articles))
      ensures forall i :: 0 <= i < |articles| ==>
        articles[i].uuid == old(articles)[i].uuid && articles[i].date == old(articles)[i].date
        && articles[i].text == old(articles)[i].text
        && articles[i].tags == Some(TagsOrSentinel(rules, old(articles)[i].text))
    {
      for i := 0 to |articles|
        invariant |articles| == |old(articles)|
        invariant forall k :: 0 <= k < i ==> articles[k] == Classify(rules, old(articles)[k])
        invariant forall k :: i <= k < |articles| ==> articles[k] == old(articles)[k]
      {
        var a := articles[i];
        var tags := GetTags(rules, a.text);
        if |tags| == 0 {
          tags := [NOTAG];
        }
        articles := articles[i := a.(tags := Some(tags))];
      }
    }

    /** `printTagStats`, with the keyword extractor as a parameter: the figures it prints for
        the current corpus; the corpus itself is left as it is. */
    method PrintTagStats(rules: seq<TagRule>, extract: string -> seq<string>) returns (report: Report)
      ensures report.histogram == Histogram(articles)
      ensures Total(report.histogram) == |Filter(articles, HasTags)|
      ensures |report.tagCounts| == |rules|
      ensures forall j :: 0 <= j < |rules| ==>
        report.tagCounts[j] == (rules[j].name, |WithTag(articles, rules[j].name)|)
      ensures report.remaining == Top(UntaggedWords(articles, extract), 0, 50)
      ensures report.gaps
        == Top(Filter(UntaggedWords(articles, extract), NotIn(TaggedWords(articles, extract))), 0, 50)
    {
      var rows := TagHistogram(articles);
      HistogramTotal(articles);
      var counts := TagCounts(articles, rules);
      var remaining, gaps := CommonWords(articles, extract);
      report := Report(rows, counts, remaining, gaps);
    }
  }
}
