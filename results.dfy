/** `TrailerResult` and `TrailerSource` (core/model/TrailerResult.kt). */
module Results {
  import opened Wrappers
  import opened Text
  import opened Exceptions

  /** Which strategy produced a `Success`. */
  datatype TrailerSource = GeminiAi | YoutubeApi | PatternMatching | UserAssisted

  /**
   * The outcome of one lookup. Confidence is kept as an integer percentage,
   * so the source's `0f..1f` range is `0..100`.
   */
  datatype TrailerResult =
    | Success(url: string, source: TrailerSource, confidence: int)
    | Error(exception: TrailerException)
    | NotFound

  /** The two `require` checks in the `init` block of `Success`. */
  predicate SuccessInvariant(url: string, confidence: int) {
    !IsBlank(url) && 0 <= confidence <= 100
  }

  /** Every `Success` value that can exist satisfies the `init` checks. */
  predicate Valid(r: TrailerResult) {
    r.Success? ==> SuccessInvariant(r.url, r.confidence)
  }

  /** Confidence each strategy attaches to its successes (0.9f, 0.7f, 0.4f). */
  const GeminiConfidence := 90
  const YoutubeConfidence := 70
  const PatternConfidence := 40

  /** The watch-page form the YouTube and pattern strategies build from a video id. */
  const WatchUrlPrefix := "https://youtube.com/watch?v="

  /**
   * `TrailerResult.Success(url, source, confidence)`: construction fails with an
   * `IllegalArgumentException` (here `Rejected` with its message) when a check fails.
   */
  function NewSuccess(url: string, source: TrailerSource, confidence: int): (r: Result<TrailerResult, string>)
    ensures r.Ok? <==> SuccessInvariant(url, confidence)
    ensures r.Ok? ==> r.value == Success(url, source, confidence) && Valid(r.value)
    ensures r.Rejected? && IsBlank(url) ==> r.error == "URL cannot be blank."
    ensures r.Rejected? && !IsBlank(url) ==> r.error == "Failed requirement."
  {
    if IsBlank(url) then Rejected("URL cannot be blank.")
    else if !(0 <= confidence <= 100) then Rejected("Failed requirement.")
    else Ok(Success(url, source, confidence))
  }

  /** The strategy constants lie in range and keep the trust order Gemini > YouTube > pattern. */
  lemma ConfidenceOrder()
    ensures 0 <= PatternConfidence < YoutubeConfidence < GeminiConfidence <= 100
  {
  }
}
