/**
  The exceptions a scrape or the store can raise, with the class hierarchy of
  exceptions.py (plus `PartialScrapeError` of runner_once.py, `ValueError`,
  `RuntimeError` and SQLite's error class), and Python's `isinstance`.
 */
module Exceptions {
  import opened Wrappers
  import opened Models

  datatype ExcClass =
    | Exception
    | HealthcareNewsError
    | ScraperNetworkError
    | ScraperTimeoutError
    | ScraperParseError
    | StorageError
    | PartialScrapeError
    | ValueError
    | RuntimeError
    | SqliteError

  /** The base class each class is declared with; `Exception` has none we model. */
  function Parent(c: ExcClass): Option<ExcClass> {
    match c
    case Exception => None
    case HealthcareNewsError => Some(Exception)
    case ScraperNetworkError => Some(HealthcareNewsError)
    case ScraperTimeoutError => Some(ScraperNetworkError)
    case ScraperParseError => Some(HealthcareNewsError)
    case StorageError => Some(HealthcareNewsError)
    case PartialScrapeError => Some(Exception)
    case ValueError => Some(Exception)
    case RuntimeError => Some(Exception)
    case SqliteError => Some(Exception)
  }

  /** Distance from `Exception` in the hierarchy. */
  function Depth(c: ExcClass): nat {
    match c
    case Exception => 0
    case ScraperNetworkError | ScraperParseError | StorageError => 2
    case ScraperTimeoutError => 3
    case _ => 1
  }

  /** `issubclass(c, base)` */
  predicate IsSubclass(c: ExcClass, base: ExcClass)
    decreases Depth(c)
  {
    c == base || (Parent(c).Some? && IsSubclass(Parent(c).value, base))
  }

  /**
    A raised exception: its class, `str(exc)`, and for `PartialScrapeError`
    the `partial_articles` it carries (`partial_articles or []`).
   */
  datatype Exc = Exc(cls: ExcClass, message: string, partialArticles: seq<ArticleDict>)

  /** `isinstance(e, c)` */
  predicate IsInstance(e: Exc, c: ExcClass) {
    IsSubclass(e.cls, c)
  }

  /** An exception raised with just a message. */
  function Raise(c: ExcClass, message: string): Exc {
    Exc(c, message, [])
  }
}
