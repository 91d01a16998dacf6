/** The article records that flow through the pipeline. */
module Models {
  import opened Wrappers

  /**
    An article as the pipeline passes it around: a `Dict[str, str]` with the
    keys `title`, `date`, `category`, `url` and `source`, any of which may be
    missing (`None` here).
   */
  datatype ArticleDict = ArticleDict(
    title: Option<string>,
    date: Option<string>,
    category: Option<string>,
    url: Option<string>,
    source: Option<string>)

  /** The `HealthcareArticle` dataclass: every field present. */
  datatype HealthcareArticle = HealthcareArticle(
    title: string,
    date: string,
    category: string,
    url: string,
    source: string)

  /** `dataclasses.asdict(article)` */
  function AsDict(a: HealthcareArticle): ArticleDict {
    ArticleDict(Some(a.title), Some(a.date), Some(a.category), Some(a.url), Some(a.source))
  }

  function AsDicts(xs: seq<HealthcareArticle>): seq<ArticleDict> {
    seq(|xs|, i requires 0 <= i < |xs| => AsDict(xs[i]))
  }

  /** The `(title, url)` pair both parsers deduplicate by. */
  function TitleUrl(a: HealthcareArticle): (string, string) {
    (a.title, a.url)
  }
}
