/** The `PipelineConfig` dataclass and its defaults. */
module Config {
  import opened Wrappers

  datatype PipelineConfig = PipelineConfig(
    cronSchedule: string,
    timezone: string,
    scraperStrategy: string,
    scraperSearchTerm: string,
    scraperLimit: int,
    dbPath: string,
    retryAttempts: int,
    retryBackoffSeconds: real,
    apiToken: Option<string>)

  /** `PipelineConfig()` with every field at its default. */
  function DefaultConfig(): PipelineConfig {
    PipelineConfig("0 */6 * * *", "UTC", "web", "", 0, "/data/healthcare_news.db", 3, 5.0, None)
  }
}
