/** The record the collector keeps per blog post (`FefeArticle`). */
module Articles {
  import opened Wrappers
  import opened Seqs

  /** `uuid` is the post's permalink, `date` the millisecond timestamp of its day heading,
      `text` the post body as markdown; `tags` is undefined until the posts are classified. */
  datatype Article = Article(uuid: string, date: int, text: string, tags: Option<seq<string>>)

  /** The label an article gets when no tag rule matches it. */
  const NOTAG: string := "notag"

  predicate IsRealTag(t: string)
  {
    t != NOTAG
  }

  /** `tags.filter(t => t !== 'notag')`. */
  function RealTags(tags: seq<string>): seq<string>
  {
    Filter(tags, IsRealTag)
  }
}
