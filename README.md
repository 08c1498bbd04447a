# fefe-collector, modelled in Dafny

The collector scrapes the monthly archive pages of blog.fefe.de into a list of articles. It
records which months it has already fetched, labels every article with tag names from a
keyword table, and prints statistics about how well the table covers the corpus. This project
models the in-memory part of that program, `src/index.ts`, and proves what it promises.

The model covers these parts of `src/index.ts`:

- **Tagger** (`tagging.dfy`). `getTags` lower-cases the text and keeps, in table order, the
  names of the rules one of whose keywords occurs in it. `applyTags` writes that list into
  every article and falls back to the sentinel `["notag"]` when it is empty. The rule table is
  a parameter; `Tagging.TAGS` holds the collector's own 53 rules.
- **Month cache** (`months.dfy`, `collector.dfy`). `getMon` builds the key of a month.
  `fetchMonth` skips a month whose key is already recorded. Otherwise it appends the page's
  articles in reverse and records the key. `fetchSince` walks month by month up to the
  current month and then stores. The class `Collector.Fefe` holds `articles`, `months` and
  the content of the data file, and its methods update them in place.
- **Page flattening** (`pages.dfy`). `parseHtml` pairs the i-th heading with the i-th list and
  emits one article per list item. It removes the time marker `/\[.+?\) /` from each body.
- **Counting** (`frequency.dfy`, `analysis.dfy`). `countFreq` builds a frequency table,
  sorts it by descending count (stably), keeps counts above `min` and takes the first `n`
  entries. The rest of this part is the figures `printTagStats` computes:
  - the histogram by number of real tags;
  - the per-tag counts;
  - the keyword tables of untagged words and of the coverage gaps.

Some behaviour of the code is easy to misread; the model follows the code as written:

- The sentinel label written for an article without tags is `notag`.
- The marker regex is not anchored. It removes the leftmost, shortest match anywhere in the
  text, and `.` does not cross a line terminator (`Pages.StripMarkerUnanchoredExample`).
- `fetchSince` passes dayjs's 0-based month to `getMon`, so January 2018 is keyed `"201800"`
  (`Months.January2018Key`). A key ending in `"12"` is never requested
  (`Months.DecemberNeverProbed`). The model reproduces this as written.
- `.length || 0 > 0` parses as `length || false`. It selects the articles with at least one
  real tag (`Analysis.IsTagged`).
- For an empty corpus `Math.max()` is `-Infinity`, so the histogram has no rows
  (`Analysis.MaxTags` returns None).
- `day.set('month', m).set('year', y)` first lets `Date.setMonth` carry whole years and then
  overwrites the year. The walk therefore starts at month `m mod 12` (Euclidean) of year `y`,
  and `fetchSince` has no precondition on the month.

The network is the parameter `Archive`, a function from a month key to the page served for
it. None means the request failed, which rejects `fetchMonth` and so aborts `fetchSince`
before the store. A page the code cannot walk fails with `MalformedPage`. That is a page with
fewer lists than headings, or a list item without an anchor; the code throws a TypeError
there. The keyword extractor is the parameter `extract`. The current month is the pair of
parameters `endYear, endMonth`.

## Model

| member | source | states |
|---|---|---|
| Text.Contains | src/index.ts:114 | definition of `includes`: the keyword occurs as a contiguous part of the text; used by `Tagging.GetTagsMembership` |
| Text.Lower | src/index.ts:114 | definition of `toLowerCase` on ASCII and Latin-1 letters; properties in `Text.LowerIsLower` |
| Text.LowerIsLower | src/index.ts:114 | the lower-cased text has no capital letters left, and lower-casing a lower-case string changes nothing |
| Text.NatToStringShape | src/index.ts:108 | `toString` of a number gives at least one digit, exactly one for numbers below ten, and starts with a digit |
| Text.NatToStringInjective | src/index.ts:108 | distinct non-negative numbers print differently |
| Text.IntToStringInjective | src/index.ts:108 | distinct integers print differently |
| Text.PadStart | src/index.ts:108 | `padStart(2, '0')` keeps the string as its suffix, pads it to the width with the fill character, and leaves longer strings alone |
| Seqs.Filter | src/index.ts:32 | `filter` never lengthens the list |
| Seqs.FilterMembers | src/index.ts:226-233 | `filter` keeps exactly the elements passing the test: everything kept is from the list and passes, and everything passing is kept |
| Tagging.GetTags | src/index.ts:111-116 | definition of `getTags` over a rule table; properties in `Tagging.GetTagsInTableOrder`, `Tagging.GetTagsMembership` and `Tagging.GetTagsDistinct` |
| Tagging.GetTagsInTableOrder | src/index.ts:111-116 | `getTags` returns the names of exactly the matching rules, in table declaration order (an increasing selection of table positions) |
| Tagging.GetTagsMembership | src/index.ts:111-116 | a name is in `getTags(text)` exactly when a rule with that name has a keyword contained in the lower-cased text |
| Tagging.GetTagsDistinct | src/index.ts:111-116 | with distinct rule names, `getTags` never repeats a name |
| Tagging.TagsOrSentinel | src/index.ts:196-201 | the labels written are never empty, and are `getTags(text)` whenever that is non-empty |
| Tagging.SentinelExactlyWhenNoRuleMatches | src/index.ts:196-201 | an article gets `["notag"]` exactly when no rule matches its text |
| Tagging.RealTagsAreMatches | src/index.ts:196-201 | after labelling, the labels other than `notag` are exactly `getTags(text)` |
| Tagging.Classify | src/index.ts:197-200 | labelling an article changes only `tags`, and leaves it a defined non-empty list |
| Tagging.ApplyAll | src/index.ts:196-201 | labelling keeps the number of articles |
| Tagging.ApplyAllIdempotent | src/index.ts:194-203 | labelling twice gives the same articles as labelling once |
| Months.GetMon | src/index.ts:107-109 | definition of `getMon`; properties in `Months.GetMonShape` and `Months.GetMonInjective` |
| Months.GetMonShape | src/index.ts:107-109 | the key of a month below 100 is the year followed by exactly two decimal digits |
| Months.GetMonInjective | src/index.ts:107-109 | distinct (year, month) pairs with months below 100 get distinct keys |
| Months.January2018Key | src/index.ts:241 | the first month `fetchSince(2018, 0)` requests is keyed `"201800"` |
| Months.Next | src/index.ts:160 | `add(1, 'month')` moves one calendar month forward, wrapping month 11 to month 0 of the next year |
| Months.MonthRange | src/index.ts:155-163 | definition of the months the `fetchSince` loop visits; properties in `Months.MonthRangeSteps`, `Months.MonthRangeEnd` and `Months.MonthRangeKeysDistinct` |
| Months.MonthRangeSteps | src/index.ts:155-163 | the walk starts at the first month, advances one calendar month per step, and never passes the end |
| Months.MonthRangeEnd | src/index.ts:160 | the walk visits every month up to and including the end month and stops there; it is empty when the start is after the end |
| Months.MonthRangeKeysDistinct | src/index.ts:160-162 | no month key is requested twice in one walk |
| Months.DecemberNeverProbed | src/index.ts:107-109 | with 0-based months no requested key ends in "12" |
| Frequency.FirstOccurrences | src/index.ts:29-30 | the keys of the `count` object are distinct, each is an element of the input, and every element is among them |
| Frequency.FirstOccurrencesOrder | src/index.ts:29-30 | the keys come in the order they are first counted: a key listed before another occurs before any occurrence of that other key |
| Frequency.CountOccurrences | src/index.ts:28-30 | the `forEach` loop leaves one dictionary key per distinct element, in first-occurrence order, each mapped to its number of occurrences |
| Frequency.Tally | src/index.ts:29-30 | definition of `Object.entries(count)`; properties in `Frequency.TallyEntries` and `Frequency.TallyCovers` |
| Frequency.TallyEntries | src/index.ts:29-30 | `Object.entries(count)` has distinct keys, each an element of the input paired with its number of occurrences |
| Frequency.TallyCovers | src/index.ts:29-30 | every element of the input has its entry, and the entries come in order of first occurrence |
| Frequency.SortByFreq | src/index.ts:31 | definition of the stable sort by descending count; properties in `Frequency.SortByFreqSortsAndPermutes`, `Frequency.SortByFreqStable` and `Frequency.SortByFreqKeysDiffer` |
| Frequency.SortByFreqSortsAndPermutes | src/index.ts:31 | the sort returns a permutation of the entries in descending count |
| Frequency.SortByFreqStable | src/index.ts:31 | entries of equal count keep their relative order |
| Frequency.SortByFreqKeysDiffer | src/index.ts:31 | sorting keeps the keys distinct |
| Frequency.Top | src/index.ts:27-34 | definition of the value `countFreq` returns; properties in `Frequency.TopProperties` and `Frequency.TopIsComplete` |
| Frequency.TopProperties | src/index.ts:27-34 | the table has at most `n` entries with distinct keys and non-increasing counts; each is a key of the input with its exact count, which is above `min` |
| Frequency.TopIsComplete | src/index.ts:27-34 | a key counted above `min` is only missing when the table is full of entries counted at least as often |
| Frequency.CountFreq | src/index.ts:27-34 | the dictionary-filling loop returns the sorted, filtered and cut table, with all the properties above |
| Pages.CloseFrom | src/index.ts:148 | the lazy `.+?\) ` finds the shortest closing `) ` after an opening `[` on the same line |
| Pages.FindMarker | src/index.ts:148 | the regex's match is the leftmost marker, and the shortest at that position |
| Pages.StripMarker | src/index.ts:148 | `replace` removes exactly the first match, and leaves text without a marker unchanged |
| Pages.StripMarkerLeadingExample | src/index.ts:148 | a leading time marker such as `[09:15) ` is removed |
| Pages.StripMarkerUnanchoredExample | src/index.ts:148 | a marker in the middle of the text is removed too, and the lazy match stops at the first `) ` |
| Pages.ItemArticle | src/index.ts:145-149 | definition of the article pushed for one list item: the heading's date, the anchor's link, the stripped text and no tags |
| Pages.Flatten | src/index.ts:143-151 | definition of the articles the nested loops push, in order; properties in `Pages.FlattenLength` and `Pages.FlattenAt` |
| Pages.FlattenLength | src/index.ts:143-151 | one article per item of the lists paired with a heading |
| Pages.FlattenAt | src/index.ts:143-151 | item j of list i becomes the article at offset(i) + j, carrying heading i's date, the item's link and its stripped text |
| Pages.ParseHtml | src/index.ts:137-153 | the nested loops succeed exactly on pages with a list for every heading and an anchor in every item, and then return the flattened articles; otherwise they fail with MalformedPage |
| Collector.FetchMonthSpec | src/index.ts:122-135 | definition of one `fetchMonth` on the corpus value; properties in `Collector.FetchMonthIdempotent`, `Collector.FetchMonthAppends` and `Collector.FetchMonthKeepsMonthsDistinct` |
| Collector.Ingest | src/index.ts:160-163 | definition of the `fetchSince` loop's fetches over a list of months, stopping at the first failure; properties in the `Collector.Ingest…` lemmas |
| Collector.FetchMonthIdempotent | src/index.ts:123-127 | fetching the same month a second time changes nothing; after a failed first fetch it fails again only because the archive answers the same key the same way |
| Collector.FetchMonthAppends | src/index.ts:123-134 | a fetch only appends to `articles` and `months`, adds at most one key, and changes nothing for a cached key |
| Collector.FetchMonthKeepsMonthsDistinct | src/index.ts:124-134 | a duplicate-free month list stays duplicate-free |
| Collector.IngestAppends | src/index.ts:160-163 | a run of fetches only grows the corpus at the end and keeps the month list duplicate-free |
| Collector.IngestCachesAll | src/index.ts:160-163 | after a run that completes, every probed month is cached |
| Collector.IngestCachedIsNoOp | src/index.ts:123-127 | a run over cached months changes nothing and succeeds |
| Collector.IngestIdempotent | src/index.ts:155-165 | repeating a completed run changes nothing |
| Collector.Fefe.constructor | src/index.ts:118-120 | a new collector starts with no articles and no months |
| Collector.Fefe.Load | src/index.ts:181-192 | the corpus is replaced by the data file's content, or kept when the file is missing or unreadable |
| Collector.Fefe.Store | src/index.ts:167-172 | the data file then holds the current articles and months |
| Collector.Fefe.FetchMonth | src/index.ts:122-135 | a cached key changes nothing; otherwise the page's articles are appended in reverse and the key recorded, and a failed request or unwalkable page changes nothing and fails |
| Collector.Fefe.FetchSince | src/index.ts:155-165 | the corpus ends as the fetches of the walked months leave it, stopping at the first failure; the probed months are a prefix of the walk, all of it on success; the data file is written only when every month succeeded |
| Collector.Fefe.ApplyTags | src/index.ts:194-203 | every article, in place and in order, gets `getTags(text)` or `["notag"]`; uuid, date and text are untouched |
| Collector.Fefe.PrintTagStats | src/index.ts:205-235 | the report holds the histogram, whose counts add up to the articles with a tag list, the per-tag counts in table order, and the two keyword tables |
| Analysis.MaxTags | src/index.ts:206 | the longest tag list's length, no list being longer; none for an empty corpus (`-Infinity`) |
| Analysis.WithTagCount | src/index.ts:208 | definition of `getArticlesByTagCount`; used by `Analysis.HistogramTotal` and `Analysis.LabelledCounts` |
| Analysis.WithTag | src/index.ts:209 | definition of `getArticlesByTag`; properties in `Analysis.LabelledTagCount` |
| Analysis.IsTagged | src/index.ts:230 | definition of the test that selects the tagged articles (at least one real tag); properties in `Analysis.SelectionsPartition` |
| Analysis.Histogram | src/index.ts:206-214 | definition of the histogram rows from `maxTags` down to 0; properties in `Analysis.HistogramTotal` and `Analysis.TagHistogram` |
| Analysis.HistogramTotal | src/index.ts:208-214 | every article with a tag list falls in exactly one histogram row, so the counts add up to their number |
| Analysis.LabelledHistogramTotal | src/index.ts:206-214 | once every article is labelled, the histogram counts add up to the number of articles |
| Analysis.SelectionsPartition | src/index.ts:222-230 | the untagged selection and the tagged selection split the articles that have a tag list |
| Analysis.LabelledCounts | src/index.ts:208-209 | after labelling, an article has zero real tags exactly when `getTags` found nothing, and carries a tag name exactly when `getTags` returned it |
| Analysis.LabelledTagCount | src/index.ts:209-218 | after labelling, the count printed for a tag is the number of articles whose lower-cased text contains one of its keywords |
| Analysis.BucketRows | src/index.ts:211-214 | the loop from a given count down to 0 yields, for each count, the number of articles with that many real tags |
| Analysis.TagHistogram | src/index.ts:211-214 | the loop from `maxTags` down to 0 yields one row per count with the number of articles having that many real tags |
| Analysis.TagCounts | src/index.ts:216-218 | one count per tag name, in table order, of the articles carrying it |
| Analysis.UntaggedWords | src/index.ts:220-226 | definition of `wordsOfUntagged`; properties in `Analysis.CommonWords` |
| Analysis.TaggedWords | src/index.ts:230-231 | definition of `wordsOfTagged`; properties in `Analysis.CommonWords` |
| Analysis.CommonWords | src/index.ts:220-233 | both word tables have at most 50 entries; no listed word is an ignored word; every gap word is absent from the tagged articles' keywords; each count is the word's number of occurrences |

## Left out

- Collector.FetchMonthIdempotent: the archive is a fixed function of the month key, so a
  request that failed fails again for the same key. The real network may answer a retry.
- Network and HTML: `fetch`, JSDOM queries, turndown's HTML-to-markdown conversion and the
  parsing of heading dates are external. A page arrives as timestamps, links and markdown.
- `store` writes JSON and a JSONL training file. The model keeps the stored corpus as a
  value; it does not model the serialisation, the JSONL line format or directory creation.
  `load` catches every failure, so a file that does not parse is the same as a missing one.
- Collector.Fefe.FetchMonth: a request that succeeds with an error status still yields a
  page; only a rejected request is None.
- The keyword extractor (German stopwords, digit removal, case change) is the parameter
  `extract`, not modelled.
- Console output, `padEnd`, `console.table` and the timers are presentation only. The random
  sample article of each histogram row (`randomElement`, `Math.random`) is nondeterministic.
- `toLowerCase` is modelled for ASCII and the Latin-1 capitals only. Full Unicode case
  mapping is not modelled.
- The clock: "now" is the parameter pair `endYear, endMonth`, and the walk compares whole
  months. dayjs limits the day of the month when it sets or adds a month, so a walk that
  starts on a 31st still visits every month; the day itself is not modelled.
- Frequency.CountFreq: the key order of a JavaScript object puts integer-like keys first in
  ascending order; the model lists all keys in first-occurrence order. The default
  `n = Infinity` is not modelled; the callers pass 50.
- Frequency.CountFreq: `count` is a plain object, so `count[e] || 0` reads the properties
  it inherits from `Object.prototype`. For a word such as `constructor` or `toString` the
  count becomes a string (the function's text followed by `1`). The comparator then yields
  NaN, which the sort takes as "equal". The comparator is then inconsistent, so the sorted
  order is implementation-defined and need not be the descending order
  `Frequency.TopProperties` proves. The `freq > min` filter then drops that word. For
  `__proto__` the assignment is ignored and the word gets no entry. The model counts all of
  these words like any other.
- Tagging.TAGS: that its names are distinct and none is `notag` holds for the table literal
  but is not proved about it. The lemmas that need it (Tagging.GetTagsDistinct,
  Tagging.SentinelExactlyWhenNoRuleMatches, Tagging.RealTagsAreMatches,
  Analysis.LabelledCounts, Analysis.LabelledTagCount) take it as a precondition on the table.
- Articles are values in a sequence field. The aliasing of article objects between the
  parsed array and `this.articles` is not modelled.
- `async`/`await`: every step runs to completion before the next one, so the model is
  sequential. The unawaited `printTagStats` and `store` calls in `start` are not modelled, and
  neither is `start` itself.
