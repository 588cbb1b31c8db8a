# AiTrailerSDK trailer lookup, modelled in Dafny

AiTrailerSDK is an Android library. Given a movie (a `TrailerRequest`: a title,
plus an optional year, director and genre), it finds a YouTube trailer link. It
asks three services in a fixed order of preference:

1. **Gemini**: a text-generation model is asked for the link, and the first
   YouTube link in its free-text reply is normalised to
   `https://www.youtube.com/watch?v=<id>`.
2. **YouTube**: the YouTube Data API is searched for "`<title> [<year>] official
   trailer`", and the first result whose title reads like an official trailer is
   taken.
3. **Pattern matching**: a table of nine well-known movies, searched by exact key
   and then by containment.

The composite service returns the first `Success`, or `NotFound`. The Gemini
service also produces a batch of suggested movies. It parses "`Movie: … |
Trailer: …`" lines and launches one concurrent task per suggestion (at most
five). Each task validates the movie, then either uses the suggested link or
runs the Gemini service's own `findTrailer` (not the composite chain). The finished tasks append to a shared list under a lock,
which is capped at five.

The model is split into one module per file:

| module (file) | models |
|---|---|
| `Wrappers` (wrappers.dfy) | `Option` and `Result` |
| `Exceptions` (exceptions.dfy) | the `TrailerException` hierarchy, as a kind plus a message |
| `Results` (results.dfy) | `TrailerResult`, `TrailerSource`, the `Success` invariant and the confidence constants |
| `Requests` (requests.dfy) | `TrailerRequest` and its blank-title rule |
| `Settings` (settings.dfy) | the two API keys of `TrailerAiConfig` |
| `Calls` (calls.dfy) | how an external call ends: it returns a value or fails |
| `Text` (text.dfy) | the Kotlin string operations the core uses, over ASCII: `isBlank`, `trim`, `lowercase`, `contains(ignoreCase)`, `replace(ignoreCase)`, `lines`, `split` |
| `LinkParser`, `LinkForms` (link_parser.dfy) | `extractYouTubeUrl` as the regex engine runs it; what it returns for each link form; the scenarios of the service's unit tests |
| `SuggestionParser` (suggestion_parser.dfy) | `parseSuggestionResponseWithTrailers`, and the round trip from the reply format the suggestion prompt asks for |
| `Gemini` (gemini.dfy) | `findTrailer`, and `suggestRelevantMovies` as a collector loop |
| `YouTube` (youtube.dfy) | `buildSearchQuery` (a loop), `isOfficialTrailer`, the first official result, and `findTrailer` |
| `PatternMatching` (pattern_matching.dfy) | `findTrailerByPattern` as a recursive search of the table, and `findTrailer` |
| `Composite` (composite.dfy) | the `for (service in sources)` loop, with a ghost record of the services it consulted |

The pure Kotlin code becomes functions and lemmas. Two pieces of the source
update variables step by step, and they become methods with loops:

- the composite's loop over its sources (`Composite.RunChain`);
- the query builder (`YouTube.BuildSearchQuery`).

The suggestion collector is also a method (`Gemini.SuggestRelevantMovies`). It
hands the candidates to `Gemini.RunTasks`, whose loop appends one finished task
at a time, in an order that is an input.

Services live outside the model and are passed in as values:

- the text-generation reply;
- the YouTube search endpoint (a function from query to outcome);
- the movie validator's answers;
- whether a timeout fired;
- the order in which concurrent tasks finish.

The model keeps each way a call can fail in the source's `catch` blocks: the
call returns, raises a `TrailerException`, times out, or throws anything else.

## Model

All source paths are relative to the repository root.

| member | source | states |
|---|---|---|
| Results.NewSuccess | app/src/main/java/com/example/aitrailersdk/core/model/TrailerResult.kt:13-22 | A `Success` can be built exactly when the URL is not blank and the confidence lies in [0, 100]. A blank URL is rejected with "URL cannot be blank.", and a confidence out of range with Kotlin's default "Failed requirement.". |
| Results.ConfidenceOrder | app/src/main/java/com/example/aitrailersdk/core/impl/CompositeTrailerService.kt:23-27 | The three confidences (pattern 40, YouTube 70, Gemini 90) lie in [0, 100] and rank the services as the composite prefers them. |
| Requests.NewTrailerRequest | app/src/main/java/com/example/aitrailersdk/core/model/TrailerRequest.kt:11-20 | A request can be built exactly when the title is not blank, and it then keeps every field as given, with the optional fields defaulting to absent. Otherwise it is rejected with "Movie Title cannot be blank". |
| Requests.RequestScenarios | app/src/test/java/com/example/aitrailersdk/TrailerAiTest.kt:24-34 | A full request is accepted, an empty title is rejected, and an untrimmed title is kept untrimmed. |
| Text.Trim | app/src/main/java/com/example/aitrailersdk/core/impl/GeminiTrailerService.kt:51 | The result is trimmed, and it is empty exactly when the input is blank. |
| Text.TrimKeepsChars | app/src/main/java/com/example/aitrailersdk/core/impl/GeminiTrailerService.kt:51 | Trimming only removes characters: every character of the result occurs in the input. |
| Text.Lower | app/src/main/java/com/example/aitrailersdk/core/impl/PatternMatchingService.kt:56 | `lowercase()` keeps the length and maps each character on its own, A–Z to a–z and everything else to itself. |
| Text.LowerHasNoUpper | app/src/main/java/com/example/aitrailersdk/core/impl/PatternMatchingService.kt:56 | A lower-cased text has no capital letter A–Z. |
| Text.LowerKeepsBlank | app/src/main/java/com/example/aitrailersdk/core/impl/PatternMatchingService.kt:56 | Lower-casing does not change whether a text is blank. |
| Text.TrimPadded | app/src/main/java/com/example/aitrailersdk/core/impl/GeminiTrailerService.kt:208-209 | Trimming removes exactly the blank padding around a trimmed core. |
| Text.TrimIdempotent | app/src/main/java/com/example/aitrailersdk/core/impl/GeminiTrailerService.kt:51 | Trimming twice is trimming once. |
| Text.RemoveIgnoreCase | app/src/main/java/com/example/aitrailersdk/core/impl/GeminiTrailerService.kt:208-209 | `replace(label, "", ignoreCase = true)` never makes a text longer. |
| Text.RemoveAbsent | app/src/main/java/com/example/aitrailersdk/core/impl/GeminiTrailerService.kt:208-209 | `replace(label, "", ignoreCase)` leaves a text without the label unchanged. |
| Text.RemoveLeading | app/src/main/java/com/example/aitrailersdk/core/impl/GeminiTrailerService.kt:208 | A leading occurrence of the label is removed. |
| Text.Lines | app/src/main/java/com/example/aitrailersdk/core/impl/GeminiTrailerService.kt:202 | `lines()` gives at least one line, and no line contains a line break. It splits at `\r\n`, `\n` and `\r`, exactly as `lines()` does. |
| Text.Split | app/src/main/java/com/example/aitrailersdk/core/impl/GeminiTrailerService.kt:206 | `split(sep)` gives at least one part, two or more exactly when the separator occurs, and no part contains the separator. |
| Text.LinesJoinLines | app/src/main/java/com/example/aitrailersdk/core/impl/GeminiTrailerService.kt:202 | Splitting a newline-joined list of line-break-free lines gives the list back. |
| Text.SplitAt | app/src/main/java/com/example/aitrailersdk/core/impl/GeminiTrailerService.kt:206 | Splitting at the first separator gives the part before it, followed by the split of the rest. |
| LinkParser.ExtractYouTubeUrl | app/src/main/java/com/example/aitrailersdk/core/impl/GeminiTrailerService.kt:218-231 | The marker NO_TRAILER_FOUND, in any letter case, yields nothing. Every result is a canonical watch URL with an 11-character id. |
| LinkParser.ExtractFirstLink | app/src/main/java/com/example/aitrailersdk/core/impl/GeminiTrailerService.kt:221-228 | Without the marker, the result is the canonical URL of the id at the first place where a link path followed by an id starts. The leftmost-match search with its optional prefixes therefore always agrees with a scan for the first link. |
| LinkParser.ExtractNoLink | app/src/main/java/com/example/aitrailersdk/core/impl/GeminiTrailerService.kt:225-230 | A text with no link path followed by an id yields nothing. |
| LinkParser.ExtractShape | app/src/main/java/com/example/aitrailersdk/core/impl/GeminiTrailerService.kt:218-231 | A result exists only when the text lacks the marker and has a first link, and it is that link's canonical URL. |
| LinkParser.FindReachesFirstLink | app/src/main/java/com/example/aitrailersdk/core/impl/GeminiTrailerService.kt:225 | `Regex.find` started at or before the first link returns that link's id. |
| LinkForms.ExtractEmbeddedLink | app/src/main/java/com/example/aitrailersdk/core/impl/GeminiTrailerService.kt:221-228 | A link in any of the accepted forms (six optional prefixes × two paths), written after text that has no letter y, comes back as the canonical URL of its id. |
| LinkForms.ShortAndWatchLinksAgree | app/src/main/java/com/example/aitrailersdk/core/impl/GeminiTrailerService.kt:223-228 | A short youtu.be link and a watch link with the same id normalise to the same URL. |
| LinkForms.CanonicalIsFixedPoint | app/src/main/java/com/example/aitrailersdk/core/impl/GeminiTrailerService.kt:228 | The canonical URL extracts to itself. |
| LinkForms.ExtractIdempotent | app/src/main/java/com/example/aitrailersdk/core/impl/GeminiTrailerService.kt:218-231 | Extracting again from an extracted URL changes nothing. |
| LinkForms.CanonicalHasNoMarker | app/src/main/java/com/example/aitrailersdk/core/impl/GeminiTrailerService.kt:219 | No canonical URL contains the marker. |
| LinkForms.MarkerPresentAt | app/src/main/java/com/example/aitrailersdk/core/impl/GeminiTrailerService.kt:219 | A text in which the marker is written contains it, in the case-insensitive sense. |
| LinkForms.ExactUrlScenario | app/src/test/java/com/example/aitrailersdk/core/impl/GeminiServiceTest.kt:13-16 | The bare canonical URL extracts to itself. |
| LinkForms.ChattyUrlScenario | app/src/test/java/com/example/aitrailersdk/core/impl/GeminiServiceTest.kt:19-22 | A link inside chatty text is found. |
| LinkForms.ShortUrlScenario | app/src/test/java/com/example/aitrailersdk/core/impl/GeminiServiceTest.kt:25-28 | A youtu.be link is normalised to the watch URL. |
| LinkForms.MarkerScenarios | app/src/test/java/com/example/aitrailersdk/core/impl/GeminiServiceTest.kt:31-40 | The marker, alone or inside a sentence, yields nothing. |
| LinkForms.QueryParameterScenario | app/src/test/java/com/example/aitrailersdk/core/impl/GeminiServiceTest.kt:43-46 | Query parameters after the id are dropped. |
| LinkForms.HelpScenario | app/src/test/java/com/example/aitrailersdk/core/impl/GeminiServiceTest.kt:49-52 | A link that follows a title containing punctuation and a year is found. |
| LinkForms.MarkerBeatsLinkScenario | app/src/main/java/com/example/aitrailersdk/core/impl/GeminiTrailerService.kt:219 | The marker wins even over a valid link that comes before it. |
| SuggestionParser.ParseLine | app/src/main/java/com/example/aitrailersdk/core/impl/GeminiTrailerService.kt:204-214 | A line yields a pair only if it contains the separator, and every pair has a non-empty title with both fields trimmed. |
| SuggestionParser.ParseLines | app/src/main/java/com/example/aitrailersdk/core/impl/GeminiTrailerService.kt:202-215 | There are never more pairs than lines, and every pair is clean. |
| SuggestionParser.ParseLinesAppend | app/src/main/java/com/example/aitrailersdk/core/impl/GeminiTrailerService.kt:202-215 | Parsing works line by line: the pairs of two blocks of lines are the pairs of each block, in order. |
| SuggestionParser.DroppedLine | app/src/main/java/com/example/aitrailersdk/core/impl/GeminiTrailerService.kt:203-210 | A line without the separator is dropped, and so is a line whose title part is empty. |
| SuggestionParser.ParseSuggestions | app/src/main/java/com/example/aitrailersdk/core/impl/GeminiTrailerService.kt:201-216 | A reply never yields more suggestions than it has lines, and every suggestion has a non-empty, trimmed title and a trimmed link field. |
| SuggestionParser.ParseFormatLine | app/src/main/java/com/example/aitrailersdk/core/impl/GeminiTrailerService.kt:204-211 | A well-formed "Movie: t \| Trailer: u" line parses back to (t, u). Well-formed means t is non-empty, and t and u are trimmed, have no separator or line break, and do not contain their label. |
| SuggestionParser.ParseFormatLines | app/src/main/java/com/example/aitrailersdk/core/impl/GeminiTrailerService.kt:202-215 | A list of formatted lines parses back to the original pairs, in order. |
| SuggestionParser.ParseJoinedLines | app/src/main/java/com/example/aitrailersdk/core/impl/GeminiTrailerService.kt:202 | A newline-joined reply parses as its lines do. |
| SuggestionParser.ParseFormattedResponse | app/src/main/java/com/example/aitrailersdk/core/impl/GeminiTrailerService.kt:201-216 | A reply written in the format the prompt asks for parses back to exactly the suggestions it encodes. |
| SuggestionParser.FormattedReplyNotBlank | app/src/main/java/com/example/aitrailersdk/core/impl/GeminiTrailerService.kt:124 | A formatted reply of one or more lines is not blank, so it gets past the blank-reply guard. |
| Gemini.FailureResult | app/src/main/java/com/example/aitrailersdk/core/impl/GeminiTrailerService.kt:69-81 | A raised `TrailerException` is passed through as it is. A timeout becomes a `Timeout` error with the message "Gemini request timed out". Any other failure becomes a `Network` error whose message starts with "Gemini service failed: ". |
| Gemini.ReplyText | app/src/main/java/com/example/aitrailersdk/core/impl/GeminiTrailerService.kt:38-52 | An absent text stays absent. The provider's text is inspected as it is. The API text is trimmed, and it is empty exactly when the reply was blank. |
| Gemini.FindTrailer | app/src/main/java/com/example/aitrailersdk/core/impl/GeminiTrailerService.kt:29-82 | Without a usable key or provider, the call is not made and an `APIKey` error is returned. A failed call is reported through the catch block. A missing or blank reply gives a `Parse` error. The result is `Success` exactly when the inspected text (the provider's text, or the API text trimmed) has a link. A non-blank reply with no link, the no-trailer marker included, gives `NotFound` and never an `Error`. A `Success` carries the URL extracted from the inspected text, which is canonical, source Gemini and confidence 90, and every result is valid. |
| Gemini.TextResult | app/src/main/java/com/example/aitrailersdk/core/impl/GeminiTrailerService.kt:54-67 | A blank reply gives the empty-response `Parse` error. A non-blank reply gives `Success` with the extracted link when there is one, and `NotFound`, not an `Error`, when there is none. |
| Gemini.NoTrailerReplyScenario | app/src/main/java/com/example/aitrailersdk/core/impl/GeminiTrailerService.kt:62-67 | A reply that is just the NO_TRAILER_FOUND marker gives `NotFound`. |
| Gemini.FindTrailerReplayUrl | app/src/main/java/com/example/aitrailersdk/core/impl/GeminiTrailerService.kt:51-67 | Feeding back the URL a lookup found, as the reply, gives the same result again. |
| Gemini.CanonicalUrlTrimmed | app/src/main/java/com/example/aitrailersdk/core/impl/GeminiTrailerService.kt:51 | Trimming leaves a canonical URL as it is. |
| Gemini.ProviderReplyScenario | app/src/test/java/com/example/aitrailersdk/TrailerAiTest.kt:53-74 | The injected provider's chatty reply yields `Success` with the test's URL and source Gemini, whatever the configuration. |
| Gemini.MissingKeyScenario | app/src/main/java/com/example/aitrailersdk/core/impl/GeminiTrailerService.kt:30-32 | A missing key and a blank key both give the `APIKey` error, whatever the reply would have been. |
| Gemini.Take | app/src/main/java/com/example/aitrailersdk/core/impl/GeminiTrailerService.kt:135 | `take(n)` returns the first n elements, or the whole list when it has n or fewer. |
| Gemini.Candidates | app/src/main/java/com/example/aitrailersdk/core/impl/GeminiTrailerService.kt:93-135 | At most five suggestions get a task. None do when the key is missing, the call fails or the reply is blank. Otherwise the candidates are the first five suggestions parsed from the inspected text. |
| Gemini.ProviderCandidates | app/src/main/java/com/example/aitrailersdk/core/impl/GeminiTrailerService.kt:124-135 | For a non-blank provider reply, the candidates are the first five parsed suggestions. |
| Gemini.FormattedReplyCandidates | app/src/main/java/com/example/aitrailersdk/core/impl/GeminiTrailerService.kt:124-135 | A reply of formatted lines makes its first five suggestions the candidates, in order. |
| Gemini.TaskOutcome | app/src/main/java/com/example/aitrailersdk/core/impl/GeminiTrailerService.kt:136-157 | A task produces a pair exactly when the validator returns details. The pair holds those details. Its trailer is the suggested link when that link is usable, and the result of a trailer lookup otherwise, and it is always valid. |
| Gemini.CollectPermutation | app/src/main/java/com/example/aitrailersdk/core/impl/GeminiTrailerService.kt:147-151 | Which pairs are collected does not depend on the completion order; only their order does. |
| Gemini.CollectCount | app/src/main/java/com/example/aitrailersdk/core/impl/GeminiTrailerService.kt:147-151 | When every finishing task produces a pair, the list holds one pair per task. |
| Gemini.ValidCollected | app/src/main/java/com/example/aitrailersdk/core/impl/GeminiTrailerService.kt:146-151 | Every collected trailer is valid. |
| Gemini.CollectedFacts | app/src/main/java/com/example/aitrailersdk/core/impl/GeminiTrailerService.kt:134-161 | For any completion order: at most five pairs, each with a valid trailer, and the same pairs as in launch order. |
| Gemini.RunTasks | app/src/main/java/com/example/aitrailersdk/core/impl/GeminiTrailerService.kt:134-151 | The tasks' loop, appending each finished task's pair while the list holds fewer than five, returns exactly the pairs of the tasks in completion order, capped at five. |
| Gemini.SuggestRelevantMovies | app/src/main/java/com/example/aitrailersdk/core/impl/GeminiTrailerService.kt:89-168 | The candidates of the reply each get a task, and the result is what those tasks produce in the given completion order. That is at most five pairs with valid trailers, and as a multiset the same as for any other order. |
| YouTube.BuildSearchQuery | app/src/main/java/com/example/aitrailersdk/core/impl/YoutubeTrailerService.kt:65-70 | The loop joining the parts with single spaces yields "title year official trailer", or "title official trailer" when there is no year. |
| YouTube.DebugQuery | app/src/test/java/com/example/aitrailersdk/TrailerAiTest.kt:124-146 | The debug test's request ("Inception", 2010) searches for "Inception 2010 official trailer". |
| YouTube.SearchQueryShape | app/src/main/java/com/example/aitrailersdk/core/impl/YoutubeTrailerService.kt:65-70 | The query starts with the title and ends with "official trailer", and the year, when present, sits right after the title and a space. |
| YouTube.IsOfficialTrailer | app/src/main/java/com/example/aitrailersdk/core/impl/YoutubeTrailerService.kt:72-77 | A title whose lower-cased form contains "official trailer" passes, and no title shorter than the shortest phrase does. |
| YouTube.OfficialIgnoresCase | app/src/main/java/com/example/aitrailersdk/core/impl/YoutubeTrailerService.kt:72-77 | The official-trailer test gives the same answer for a title and its lower-cased form. |
| YouTube.OfficialWithPhrase | app/src/main/java/com/example/aitrailersdk/core/impl/YoutubeTrailerService.kt:72-77 | Any title that contains one of the three phrases, in any letter case, passes. |
| YouTube.NotOfficialWithoutL | app/src/main/java/com/example/aitrailersdk/core/impl/YoutubeTrailerService.kt:72-77 | A title without the letter l fails, since every phrase contains an l. |
| YouTube.TrailerTitleIsOfficial | app/src/main/java/com/example/aitrailersdk/core/impl/YoutubeTrailerService.kt:74 | "Inception - Official Trailer (HD)" passes. |
| YouTube.MainTitleIsOfficial | app/src/main/java/com/example/aitrailersdk/core/impl/YoutubeTrailerService.kt:76 | "THE MAIN TRAILER" passes, regardless of case. |
| YouTube.TeaserIsNotOfficial | app/src/main/java/com/example/aitrailersdk/core/impl/YoutubeTrailerService.kt:72-77 | "Inception teaser" fails. |
| YouTube.FirstOfficial | app/src/main/java/com/example/aitrailersdk/core/impl/YoutubeTrailerService.kt:48 | The index found is that of an item that passes with no earlier item passing, and there is none exactly when no item passes. |
| YouTube.FirstOfficialFrom | app/src/main/java/com/example/aitrailersdk/core/impl/YoutubeTrailerService.kt:48 | `find` returns the index of the first item that passes, with every item before it failing; or nothing, with every item failing. |
| YouTube.FirstOfficialAppend | app/src/main/java/com/example/aitrailersdk/core/impl/YoutubeTrailerService.kt:48 | Items after the first official trailer play no part. |
| YouTube.FailureResult | app/src/main/java/com/example/aitrailersdk/core/impl/YoutubeTrailerService.kt:56-61 | A `TrailerException` passes through. A timeout becomes a `Timeout` error with the service's message, and anything else a `Network` error. |
| YouTube.FindTrailer | app/src/main/java/com/example/aitrailersdk/core/impl/YoutubeTrailerService.kt:34-63 | Without a key the result is `NotFound`. The result is an `Error` exactly when the search fails. A `Success` is the watch URL of the first official result, with source YouTube and confidence 70. `NotFound` with a key means no result passed. Every result is valid. |
| YouTube.BlankKeyStillSearches | app/src/main/java/com/example/aitrailersdk/core/impl/YoutubeTrailerService.kt:35-37 | Only a missing key skips the search. A blank key still searches. |
| YouTube.SearchScenario | app/src/test/java/com/example/aitrailersdk/TrailerAiTest.kt:124-146 | For the debug test's request, with a teaser ahead of an official trailer in the search results, the official one is chosen. |
| PatternMatching.KeysDistinct | app/src/main/java/com/example/aitrailersdk/core/impl/PatternMatchingService.kt:24-34 | The table's keys are pairwise distinct. |
| PatternMatching.MovieKey | app/src/main/java/com/example/aitrailersdk/core/impl/PatternMatchingService.kt:56 | The key is trimmed, holds no capital letter, and is empty exactly when the title is blank. |
| PatternMatching.Related | app/src/main/java/com/example/aitrailersdk/core/impl/PatternMatchingService.kt:63 | Two equal keys are related, and the empty key is related to every key. |
| PatternMatching.ExactFrom | app/src/main/java/com/example/aitrailersdk/core/impl/PatternMatchingService.kt:59 | The map lookup finds the entry whose key equals the movie key, or reports that none does. |
| PatternMatching.FirstRelatedFrom | app/src/main/java/com/example/aitrailersdk/core/impl/PatternMatchingService.kt:62-66 | The partial-match scan returns the first entry, in table order, where either key contains the other. |
| PatternMatching.MatchIndex | app/src/main/java/com/example/aitrailersdk/core/impl/PatternMatchingService.kt:55-66 | A table index is found only when its key is related to the movie key, and none is found exactly when no key is related. |
| PatternMatching.TrailerUrlByPattern | app/src/main/java/com/example/aitrailersdk/core/impl/PatternMatchingService.kt:55-69 | There is a URL exactly when some table key is related to the lower-cased, trimmed title, and it is the watch URL of a table entry. |
| PatternMatching.ExactMatchFirst | app/src/main/java/com/example/aitrailersdk/core/impl/PatternMatchingService.kt:56-59 | An exact key hit wins over every partial match. |
| PatternMatching.FirstRelatedWins | app/src/main/java/com/example/aitrailersdk/core/impl/PatternMatchingService.kt:62-66 | Without an exact hit, the first related key in table order wins. |
| PatternMatching.ExactTitle | app/src/main/java/com/example/aitrailersdk/core/impl/PatternMatchingService.kt:56-59 | A title that lower-cases to a table key, with no padding, gets that entry's watch URL. |
| PatternMatching.FindTrailer | app/src/main/java/com/example/aitrailersdk/core/impl/PatternMatchingService.kt:36-53 | A fired timeout gives the service's `Timeout` error, and it is the only error. Otherwise the result is `Success`, with source pattern matching and confidence 40, exactly when the table yields a URL, and it carries that URL. |
| PatternMatching.InceptionScenario | app/src/main/java/com/example/aitrailersdk/core/impl/PatternMatchingService.kt:56-59 | "Inception" resolves to its table entry. |
| PatternMatching.DarkKnightScenario | app/src/test/java/com/example/aitrailersdk/TrailerAiTest.kt:148-164 | "The Dark Knight" resolves to its table entry. |
| PatternMatching.DuneScenario | app/src/test/java/com/example/aitrailersdk/TrailerAiTest.kt:148-164 | "Dune" resolves to its table entry. |
| PatternMatching.AvatarScenario | app/src/test/java/com/example/aitrailersdk/TrailerAiTest.kt:148-164 | "Avatar" resolves to its table entry. |
| PatternMatching.PartialTitleScenario | app/src/main/java/com/example/aitrailersdk/core/impl/PatternMatchingService.kt:62-66 | "dark" has no exact entry and resolves, by containment, to "the dark knight". |
| PatternMatching.UnknownTitleScenario | app/src/main/java/com/example/aitrailersdk/core/impl/PatternMatchingService.kt:68 | A title related to no key gives `NotFound`. |
| Composite.Consult | app/src/main/java/com/example/aitrailersdk/core/impl/CompositeTrailerService.kt:23-27 | Every service answer is a valid result. |
| Composite.FirstSuccessFrom | app/src/main/java/com/example/aitrailersdk/core/impl/CompositeTrailerService.kt:29-38 | Finds the first source whose attempt succeeds, with no success before it; or reports that none succeeds. |
| Composite.Resolve | app/src/main/java/com/example/aitrailersdk/core/impl/CompositeTrailerService.kt:29-57 | The chain never returns an `Error`. It returns `NotFound` exactly when no source succeeds. |
| Composite.RunChain | app/src/main/java/com/example/aitrailersdk/core/impl/CompositeTrailerService.kt:29-57 | The loop returns the first success or `NotFound`. It consults the sources in order, up to and including the first success, and no further. |
| Composite.SkipUnsuccessful | app/src/main/java/com/example/aitrailersdk/core/impl/CompositeTrailerService.kt:39-54 | An `Error`, a `NotFound` or an exception from the first source just moves on to the rest, at the cost of one consultation. |
| Composite.ChainIsPreferred | app/src/main/java/com/example/aitrailersdk/core/impl/CompositeTrailerService.kt:23-57 | The loop over Gemini, YouTube and pattern matching agrees with the reference preference order, both in the result and in the number of services consulted. |
| Composite.FindTrailer | app/src/main/java/com/example/aitrailersdk/core/impl/CompositeTrailerService.kt:18-58 | The result is Gemini's success, else YouTube's, else the pattern table's, else `NotFound`. It is never an `Error` and always valid. The services consulted are exactly those up to the first success. |
| Composite.AllErrorsGiveNotFound | app/src/main/java/com/example/aitrailersdk/core/impl/CompositeTrailerService.kt:39-57 | Errors from all three services still give `NotFound`. |
| Composite.FallbackScenario | app/src/test/java/com/example/aitrailersdk/TrailerAiTest.kt:77-94 | When neither Gemini nor YouTube succeeds and the table does not time out, "Inception" resolves through the pattern table with source pattern matching. |

## Where the code and its description differ

The model follows the code in each of these cases:

- **`Error` is not a subtype.** At TrailerResult.kt:27, `Error` is declared
  without `: TrailerResult()`, so it is not a subtype of the sealed class. Every
  caller treats it as one: the services' `as TrailerResult` casts and the
  composite's `when` branch do. As written, those casts would fail at run time.
  Worse, GeminiTrailerService.kt:31 and :74 return `TrailerResult.Error(…)`
  with no cast from functions declared to return `TrailerResult`, so that file
  does not compile as written. The model makes `Error` a variant of
  `TrailerResult`, which is how it is used.
- **No overall time budget for the batch.** No deadline covers the whole batch.
  Each lookup is bounded only by its own call's timeout.
- **The suggestion prompt asks for ten.** The prompt requests ten suggestions,
  but only the first five parsed ones get a task (`take(5)`).
- **Titles are not trimmed.** `TrailerRequest` rejects a blank title but keeps an
  untrimmed one as it is. Trimming happens only in the pattern service's key.
- **Two URL prefixes.** Gemini returns `https://www.youtube.com/watch?v=…`. The
  YouTube and pattern services return `https://youtube.com/watch?v=…`
  (`Results.WatchUrlPrefix`).
- **A task's lookup is Gemini's own.** A suggestion without a usable link is
  looked up with the Gemini service's own `findTrailer`
  (GeminiTrailerService.kt:144), not with the composite chain, so it never falls
  back to YouTube or the pattern table.
- **Suggested links are not validated.** A non-blank suggested trailer other than
  `NO_TRAILER` becomes a `Success` as it stands (`Gemini.TaskOutcome`).
- **`buildTrailerPrompt` reads a missing field.** It refers to
  `request.description`, which `TrailerRequest` does not have. Prompts are not
  modelled.

## Left out

- Prompts (`buildTrailerPrompt`, `buildSuggestionPrompt`): the reply comes back
  as an input, so the prompt text plays no part in any result.
- The HTTP clients, the Gemini SDK, Retrofit and the YouTube API response
  classes: they become a call outcome, or a search function from query to
  outcome.
- Coroutines: `withTimeout`, `supervisorScope` with one `launch` per
  suggestion, and the list made with `Collections.synchronizedList` and guarded
  by `synchronized` (GeminiTrailerService.kt:97, 134-151, 161). Whether a
  timeout fired is a flag or a failure, and the order in which tasks finish is
  the input `order`. Mutual exclusion is implied by appending one task at a
  time.
- `timeOut`: it is read only as the bound of `withTimeout(config.timeOut)`
  (GeminiTrailerService.kt:35 and :103, YoutubeTrailerService.kt:40,
  PatternMatchingService.kt:38). The model keeps only whether that bound fired.
- Logging and `enableLogging`, `cacheStrategy` and `maxRetries`: no core path
  reads them, except logging.
- `TrailerAi.kt`, the public entry point, is not part of this model. The
  debug helpers are tests (TrailerAiTest.kt:96-164); those for YouTube and
  pattern matching are the scenarios `YouTube.SearchScenario`,
  `PatternMatching.DarkKnightScenario`, `PatternMatching.DuneScenario` and
  `PatternMatching.AvatarScenario`. `MovieValidator` is only an interface
  (MovieValidator.kt:9-16) with no implementation in the repository, so the
  validator's answers are inputs.
- Exception causes (`cause`) are not kept. An exception is its kind and its
  message.
- Confidence is modelled as a whole percentage (0.9 → 90), not as a `Float`.
- Case folding and whitespace are ASCII only: `lowercase()` maps A–Z only, and
  whitespace is space, tab, line feed, vertical tab, form feed, carriage
  return and the separators FS, GS, RS and US (28-31). The other Unicode spaces
  are not modelled.
- PatternMatching.FindTrailer: the timeout is a flag. The generic "Pattern
  matching failed" `Network` branch is left out, because the pure table lookup
  cannot throw.
- Composite.FindTrailer: the three concrete services never throw out of
  `findTrailer`; each catches its own failures. The loop's `Threw` case is
  therefore modelled in `Composite.RunChain` but never arises for them. The
  composite is given each service's result as a value. The laziness of the loop
  shows only in the ghost `consulted` sequence.
- Gemini.SuggestRelevantMovies: every launched task is taken to finish
  (`order` is a permutation of the tasks). The partial list that the catch
  block returns when the batch is cancelled (GeminiTrailerService.kt:163-167)
  is not modelled.
- Gemini.SuggestRelevantMovies: a task that throws is dropped, as is one whose
  validation gives nothing. The final `take(5)` is implied by the cap and is not
  repeated.
- Gemini.FindTrailer: "a provider was injected" is the flag `hasProvider`, not
  the function itself. The composite always builds Gemini without a provider.
