/** The part of `TrailerAiConfig` (core/config/TrailerAiConfig.kt) that the services consult. */
module Settings {
  import opened Wrappers

  /** The two API keys; `None` is a key that was not configured (`null`). */
  datatype TrailerAiConfig = TrailerAiConfig(geminiApiKey: Option<string>, youtubeApiKey: Option<string>)
}
