/** `parseHtml`: flattening one archive page into articles, with the time marker
    `/\[.+?\) /` removed from each post body. The DOM queries, the HTML-to-markdown
    conversion and the date parsing are external; a page arrives as their results. */
module Pages {
  import opened Wrappers
  import opened Seqs
  import opened Articles

  /** One `li` of a list: the `href` of its first anchor (None when it has no anchor) and
      its inner HTML converted to markdown. */
  datatype Item = Item(href: Option<string>, markdown: string)

  /** One archive page: the parsed timestamps of the `body > h3` headings, in document order,
      and the items of the `body > ul` lists, in document order. */
  datatype Page = Page(dates: seq<int>, lists: seq<seq<Item>>)

  /** What can go wrong while fetching a month: the request fails, or the page does not have
      the heading/list structure `parseHtml` dereferences (a TypeError in the source). */
  datatype Error = FetchFailed | MalformedPage

  /** The characters the regex `.` does not match. */
  predicate LineTerminator(c: char)
  {
    c == '\n' || c == '\r' || c == '\U{2028}' || c == '\U{2029}'
  }

  /** `/\[.+?\) /` matches `s[p..q + 2]`: an opening bracket at `p`, at least one character
      other than a line terminator, then ") " at `q`. */
  predicate IsMarker(s: string, p: nat, q: nat)
  {
    && p + 2 <= q && q + 2 <= |s|
    && s[p] == '[' && s[q] == ')' && s[q + 1] == ' '
    && forall k :: p < k < q ==> !LineTerminator(s[k])
  }

  /** The match `String.prototype.replace` removes: it starts as early as possible, and the
      lazy `.+?` makes it end as early as possible from there. */
  ghost predicate IsFirstMarker(s: string, p: nat, q: nat)
  {
    && IsMarker(s, p, q)
    && (forall p': nat, q': nat :: p' < p ==> !IsMarker(s, p', q'))
    && (forall q': nat :: q' < q ==> !IsMarker(s, p, q'))
  }

  /** The lazy quantifier: try ") " at `q`, `q + 1`, ... until a line terminator stops the `.`. */
  function CloseFrom(s: string, p: nat, q: nat): (r: Option<nat>)
    requires p + 2 <= q <= |s| + 1
    requires forall k :: p < k < q - 1 ==> !LineTerminator(s[k])
    requires p < |s| && s[p] == '['
    ensures r.Some? ==> q <= r.value && IsMarker(s, p, r.value)
    ensures r.Some? ==> forall q': nat :: q <= q' < r.value ==> !IsMarker(s, p, q')
    ensures r.None? ==> forall q': nat :: q <= q' ==> !IsMarker(s, p, q')
    decreases |s| - q
  {
    if q + 2 > |s| then None
    else if LineTerminator(s[q - 1]) then None
    else if s[q] == ')' && s[q + 1] == ' ' then Some(q)
    else CloseFrom(s, p, q + 1)
  }

  /** The regex search: try every start position from `p` on, leftmost first. */
  function FindMarker(s: string, p: nat): (r: Option<(nat, nat)>)
    ensures r.Some? ==> p <= r.value.0 && IsMarker(s, r.value.0, r.value.1)
    ensures r.Some? ==> forall p': nat, q': nat :: p <= p' < r.value.0 ==> !IsMarker(s, p', q')
    ensures r.Some? ==> forall q': nat :: q' < r.value.1 ==> !IsMarker(s, r.value.0, q')
    ensures r.None? ==> forall p': nat, q': nat :: p <= p' ==> !IsMarker(s, p', q')
    decreases |s| - p
  {
    if p >= |s| then None
    else if s[p] == '[' && CloseFrom(s, p, p + 2).Some? then Some((p, CloseFrom(s, p, p + 2).value))
    else FindMarker(s, p + 1)
  }

  /** `.replace(/\[.+?\) /, '')`: remove the first match, wherever it is in the text; leave the
      text alone when nothing matches. */
  function StripMarker(s: string): (r: string)
    ensures (forall p: nat, q: nat :: !IsMarker(s, p, q)) ==> r == s
    ensures forall p: nat, q: nat :: IsFirstMarker(s, p, q) ==> r == s[..p] + s[q + 2..]
  {
    match FindMarker(s, 0)
    case None => s
    case Some((p, q)) => s[..p] + s[q + 2..]
  }

  /** The time marker in front of a post goes, and the post text stays. */
  lemma StripMarkerLeadingExample()
    ensures StripMarker("[09:15) Bitcoin crasht wieder.") == "Bitcoin crasht wieder."
  {
    var s := "[09:15) Bitcoin crasht wieder.";
    assert IsMarker(s, 0, 6);
    forall q': nat | q' < 6
      ensures !IsMarker(s, 0, q')
    {
    }
    assert s[8..] == "Bitcoin crasht wieder.";
  }

  /** The pattern is not anchored: a marker further in is removed just the same, and the lazy
      `.+?` stops at the first ") ". */
  lemma StripMarkerUnanchoredExample()
    ensures StripMarker("so [a) b) c") == "so b) c"
  {
    var s := "so [a) b) c";
    assert IsMarker(s, 3, 5);
    forall p': nat, q': nat | p' < 3
      ensures !IsMarker(s, p', q')
    {
    }
    forall q': nat | q' < 5
      ensures !IsMarker(s, 3, q')
    {
    }
    assert s[..3] + s[7..] == "so b) c";
  }

  /** Every item carries a link. */
  predicate HasLinks(items: seq<Item>)
  {
    forall j :: 0 <= j < |items| ==> items[j].href.Some?
  }

  /** A page `parseHtml` gets through: a list for every heading and an anchor in every item
      of those lists (further lists are never looked at). */
  predicate WellFormed(page: Page)
  {
    && |page.dates| <= |page.lists|
    && forall i :: 0 <= i < |page.dates| ==> HasLinks(page.lists[i])
  }

  /** The article built from one list item under a heading with timestamp `date`. */
  function ItemArticle(date: int, item: Item): Article
    requires item.href.Some?
  {
    Article(item.href.value, date, StripMarker(item.markdown), None)
  }

  /** The articles of one heading's list, in list order. */
  function Row(date: int, items: seq<Item>): seq<Article>
    requires HasLinks(items)
  {
    seq(|items|, j requires 0 <= j < |items| => ItemArticle(date, items[j]))
  }

  /** The articles of the first |dates| headings, heading by heading. */
  function Flatten(dates: seq<int>, lists: seq<seq<Item>>): seq<Article>
    requires |dates| <= |lists|
    requires forall i :: 0 <= i < |dates| ==> HasLinks(lists[i])
  {
    if dates == [] then []
    else Flatten(dates[..|dates| - 1], lists) + Row(dates[|dates| - 1], lists[|dates| - 1])
  }

  function PageArticles(page: Page): seq<Article>
    requires WellFormed(page)
  {
    Flatten(page.dates, page.lists)
  }

  /** Number of items in the first `i` lists. */
  function Offset(lists: seq<seq<Item>>, i: nat): nat
    requires i <= |lists|
  {
    if i == 0 then 0 else Offset(lists, i - 1) + |lists[i - 1]|
  }

  /** One article per item of the first |dates| lists. */
  lemma {:induction false} FlattenLength(dates: seq<int>, lists: seq<seq<Item>>)
    requires |dates| <= |lists|
    requires forall i :: 0 <= i < |dates| ==> HasLinks(lists[i])
    ensures |Flatten(dates, lists)| == Offset(lists, |dates|)
  {
    if dates != [] {
      FlattenLength(dates[..|dates| - 1], lists);
    }
  }

  /** The i-th heading is paired with the i-th list: item j of list i becomes article
      Offset(i) + j, carrying the i-th timestamp. */
  lemma {:induction false} FlattenAt(dates: seq<int>, lists: seq<seq<Item>>, i: nat, j: nat)
    requires |dates| <= |lists|
    requires forall k :: 0 <= k < |dates| ==> HasLinks(lists[k])
    requires i < |dates| && j < |lists[i]|
    ensures Offset(lists, i) + j < |Flatten(dates, lists)|
    ensures Flatten(dates, lists)[Offset(lists, i) + j] == ItemArticle(dates[i], lists[i][j])
  {
    var n := |dates| - 1;
    var front := dates[..n];
    var head := Flatten(front, lists);
    var row := Row(dates[n], lists[n]);
    FlattenLength(front, lists);
    assert Flatten(dates, lists) == head + row;
    if i < n {
      FlattenAt(front, lists, i, j);
      assert front[i] == dates[i];
    }
  }

  /** `parseHtml`: for each heading i, for each item of list i, push an article; the source
      throws when there is no list i or an item has no anchor. */
  method ParseHtml(page: Page) returns (r: Result<seq<Article>, Error>)
    ensures r.Success? <==> WellFormed(page)
    ensures r.Success? ==> r.value == PageArticles(page)
    ensures r.Failure? ==> r.error == MalformedPage
  {
    var articles: seq<Article> := [];
    for i := 0 to |page.dates|
      invariant i <= |page.lists|
      invariant forall k :: 0 <= k < i ==> HasLinks(page.lists[k])
      invariant articles == Flatten(page.dates[..i], page.lists)
    {
      if i >= |page.lists| {
        return Failure(MalformedPage);
      }
      var items := page.lists[i];
      for j := 0 to |items|
        invariant forall m :: 0 <= m < j ==> items[m].href.Some?
        invariant articles == Flatten(page.dates[..i], page.lists) + Row(page.dates[i], items[..j])
      {
        if items[j].href.None? {
          return Failure(MalformedPage);
        }
        articles := articles + [ItemArticle(page.dates[i], items[j])];
        assert Row(page.dates[i], items[..j + 1]) == Row(page.dates[i], items[..j]) + [ItemArticle(page.dates[i], items[j])];
      }
      assert items[..|items|] == items;
      assert page.dates[..i + 1][..i] == page.dates[..i];
    }
    assert page.dates[..|page.dates|] == page.dates;
    return Success(articles);
  }
}
