/**
 * `YouTubeTrailerService` (core/impl/YoutubeTrailerService.kt): a search on the
 * video API, and the first result whose title reads like an official trailer.
 * The search endpoint is a parameter: it maps a query to the call's outcome.
 */
module YouTube {
  import opened Wrappers
  import opened Text
  import opened Exceptions
  import opened Results
  import Requests
  import opened Settings
  import opened Calls

  /** One search result: `id.videoId`, `snippet.title` and `snippet.description`. */
  datatype Video = Video(videoId: string, title: string, description: string)

  const QuerySuffix := "official trailer"
  const TrailerPhrases := ["official trailer", "theatrical trailer", "main trailer"]
  const MaxResults := 5
  const TimeoutMessage := "YouTube API request timed out"
  const FailureMessage := "YouTube API service failed"

  // ---------------------------------------------------------------------
  // buildSearchQuery

  /** `joinToString(" ")` as it walks the list from the left. */
  function JoinWords(words: seq<string>): string
    requires |words| >= 1
  {
    if |words| == 1 then words[0] else JoinWords(words[..|words| - 1]) + " " + words[|words| - 1]
  }

  /** The query the service sends: the title, the year when known, then the fixed suffix. */
  function SearchQuery(request: Requests.TrailerRequest): string {
    match request.year
      case Some(y) => request.movieTitle + " " + y + " " + QuerySuffix
      case None => request.movieTitle + " " + QuerySuffix
  }

  /** `buildSearchQuery`: collects the parts, then joins them with single spaces. */
  method BuildSearchQuery(request: Requests.TrailerRequest) returns (query: string)
    ensures query == SearchQuery(request)
  {
    var parts := [request.movieTitle];
    if request.year.Some? {
      parts := parts + [request.year.value];
    }
    parts := parts + [QuerySuffix];
    query := parts[0];
    var i := 1;
    while i < |parts|
      invariant 1 <= i <= |parts|
      invariant query == JoinWords(parts[..i])
    {
      assert parts[..i + 1][..i] == parts[..i];
      query := query + " " + parts[i];
      i := i + 1;
    }
    assert parts[..i] == parts;
    if request.year.Some? {
      assert parts == [request.movieTitle, request.year.value, QuerySuffix];
      assert parts[..2] == [request.movieTitle, request.year.value];
      assert parts[..2][..1] == [request.movieTitle];
      assert JoinWords(parts[..2]) == request.movieTitle + " " + request.year.value;
      assert JoinWords(parts) == JoinWords(parts[..2]) + " " + QuerySuffix;
    } else {
      assert parts == [request.movieTitle, QuerySuffix];
      assert parts[..1] == [request.movieTitle];
      assert JoinWords(parts) == JoinWords(parts[..1]) + " " + QuerySuffix;
    }
  }

  /** The query begins with the title and ends with the suffix, and its middle is the year. */
  lemma SearchQueryShape(request: Requests.TrailerRequest)
    ensures SearchQuery(request)[..|request.movieTitle|] == request.movieTitle
    ensures |SearchQuery(request)| > |QuerySuffix|
    ensures SearchQuery(request)[|SearchQuery(request)| - |QuerySuffix|..] == QuerySuffix
    ensures request.year.None? ==> |SearchQuery(request)| == |request.movieTitle| + 1 + |QuerySuffix|
    ensures request.year.Some? ==>
      SearchQuery(request)[|request.movieTitle| + 1..|request.movieTitle| + 1 + |request.year.value|] == request.year.value
  {
  }

  // ---------------------------------------------------------------------
  // isOfficialTrailer and the first match

  /** `isOfficialTrailer`: the lower-cased title holds one of the trailer phrases. */
  function IsOfficialTrailer(title: string): (b: bool)
    ensures Contains(Lower(title), QuerySuffix) ==> b
    ensures b ==> |title| >= |TrailerPhrases[2]|
  {
    assert Contains(Lower(title), QuerySuffix) ==> Contains(Lower(title), TrailerPhrases[0]);
    assert forall k :: 0 <= k < |TrailerPhrases| ==> |TrailerPhrases[2]| <= |TrailerPhrases[k]|;
    exists k :: 0 <= k < |TrailerPhrases| && Contains(Lower(title), TrailerPhrases[k])
  }

  lemma LowerIdempotent(s: string)
    ensures Lower(Lower(s)) == Lower(s)
  {
  }

  /** The test ignores letter case: a title and its lower-cased form are judged alike. */
  lemma OfficialIgnoresCase(title: string)
    ensures IsOfficialTrailer(Lower(title)) <==> IsOfficialTrailer(title)
  {
    LowerIdempotent(title);
  }

  /** A title that holds a trailer phrase, written in any letter case, passes the test. */
  lemma OfficialWithPhrase(pre: string, phrase: string, post: string, k: nat)
    requires k < |TrailerPhrases| && Lower(phrase) == TrailerPhrases[k]
    ensures IsOfficialTrailer(pre + phrase + post)
  {
    LowerConcat(pre, phrase);
    LowerConcat(pre + phrase, post);
    var l := Lower(pre + phrase + post);
    assert l == Lower(pre) + TrailerPhrases[k] + Lower(post);
    assert OccursAt(l, TrailerPhrases[k], |pre|);
  }

  /** The index of the first item whose title passes the test (`find`). */
  function FirstOfficialFrom(items: seq<Video>, from: nat): (r: Option<nat>)
    requires from <= |items|
    ensures r.Some? ==> from <= r.value < |items| && IsOfficialTrailer(items[r.value].title)
    ensures r.Some? ==> forall j :: from <= j < r.value ==> !IsOfficialTrailer(items[j].title)
    ensures r.None? ==> forall j :: from <= j < |items| ==> !IsOfficialTrailer(items[j].title)
    decreases |items| - from
  {
    if from == |items| then None
    else if IsOfficialTrailer(items[from].title) then Some(from)
    else FirstOfficialFrom(items, from + 1)
  }

  function FirstOfficial(items: seq<Video>): (r: Option<nat>)
    ensures r.Some? ==> r.value < |items| && IsOfficialTrailer(items[r.value].title)
    ensures r.Some? ==> forall j :: 0 <= j < r.value ==> !IsOfficialTrailer(items[j].title)
    ensures r.None? <==> forall j :: 0 <= j < |items| ==> !IsOfficialTrailer(items[j].title)
  {
    FirstOfficialFrom(items, 0)
  }

  /** Items after the first official trailer play no part in the choice. */
  lemma {:induction false} FirstOfficialAppend(items: seq<Video>, more: seq<Video>, from: nat)
    requires from <= |items| && FirstOfficialFrom(items, from).Some?
    ensures FirstOfficialFrom(items + more, from) == FirstOfficialFrom(items, from)
    decreases |items| - from
  {
    assert (items + more)[from] == items[from];
    if !IsOfficialTrailer(items[from].title) {
      FirstOfficialAppend(items, more, from + 1);
    }
  }

  // ---------------------------------------------------------------------
  // findTrailer

  /** The `catch` block of `findTrailer`. */
  function FailureResult(f: Failure): (r: TrailerResult)
    ensures r.Error?
    ensures f.Raised? ==> r.exception == f.exception
    ensures f.TimedOut? ==> r.exception == TrailerException(Timeout, TimeoutMessage)
    ensures f.Crashed? ==> r.exception == TrailerException(Network, FailureMessage)
  {
    match f
      case Raised(e) => Error(e)
      case TimedOut => Error(TrailerException(Timeout, TimeoutMessage))
      case Crashed(_) => Error(TrailerException(Network, FailureMessage))
  }

  /** `findTrailer`, with `search` standing for the video API's search endpoint. */
  function FindTrailer(config: TrailerAiConfig, request: Requests.TrailerRequest,
                       search: string -> CallOutcome<seq<Video>>): (r: TrailerResult)
    ensures Valid(r)
    ensures config.youtubeApiKey.None? ==> r == NotFound
    ensures r.Error? <==> config.youtubeApiKey.Some? && search(SearchQuery(request)).Failed?
    ensures r.Error? ==> r == FailureResult(search(SearchQuery(request)).failure)
    ensures r.Success? ==>
      && config.youtubeApiKey.Some? && search(SearchQuery(request)).Returned?
      && r.source == YoutubeApi && r.confidence == YoutubeConfidence
      && var items := search(SearchQuery(request)).value;
         exists i :: 0 <= i < |items| && IsOfficialTrailer(items[i].title)
           && (forall j :: 0 <= j < i ==> !IsOfficialTrailer(items[j].title))
           && r.url == WatchUrlPrefix + items[i].videoId
    ensures r.NotFound? && config.youtubeApiKey.Some? ==>
      && search(SearchQuery(request)).Returned?
      && var items := search(SearchQuery(request)).value;
         forall j :: 0 <= j < |items| ==> !IsOfficialTrailer(items[j].title)
  {
    if config.youtubeApiKey.None? then NotFound
    else match search(SearchQuery(request))
      case Failed(f) => FailureResult(f)
      case Returned(items) =>
        match FirstOfficial(items)
          case Some(i) =>
            var url := WatchUrlPrefix + items[i].videoId;
            NotBlankAt(url, 0);
            Success(url, YoutubeApi, YoutubeConfidence)
          case None => NotFound
  }

  /** A key that is present but blank still searches; only a missing key skips the service. */
  lemma BlankKeyStillSearches(request: Requests.TrailerRequest, search: string -> CallOutcome<seq<Video>>)
    requires search(SearchQuery(request)).Failed?
    ensures FindTrailer(TrailerAiConfig(None, Some("")), request, search).Error?
    ensures FindTrailer(TrailerAiConfig(None, None), request, search) == NotFound
  {
  }

  /** Every trailer phrase holds an l, so a title without one is not a trailer. */
  lemma NotOfficialWithoutL(title: string)
    requires 'l' !in title && 'L' !in title
    ensures !IsOfficialTrailer(title)
  {
    var l := Lower(title);
    assert 'l' !in l by {
      forall i | 0 <= i < |l| ensures l[i] != 'l' {
        assert title[i] != 'l' && title[i] != 'L';
      }
    }
    forall k | 0 <= k < |TrailerPhrases| ensures !Contains(l, TrailerPhrases[k]) {
      assert TrailerPhrases[k][|TrailerPhrases[k]| - 3] == 'l';
      MissingCharNotContained(l, TrailerPhrases[k], |TrailerPhrases[k]| - 3);
    }
  }

  const TrailerTitle := "Inception - " + "Official Trailer" + " (HD)"
  const MainTitle := "THE " + "MAIN TRAILER"
  const TeaserTitle := "Inception " + "teaser"

  lemma TrailerTitleIsOfficial()
    ensures IsOfficialTrailer(TrailerTitle)
  {
    OfficialWithPhrase("Inception - ", "Official Trailer", " (HD)", 0);
  }

  lemma MainTitleIsOfficial()
    ensures IsOfficialTrailer(MainTitle)
  {
    OfficialWithPhrase("THE ", "MAIN TRAILER", "", 2);
    assert "THE " + "MAIN TRAILER" + "" == MainTitle;
  }

  lemma TeaserIsNotOfficial()
    ensures !IsOfficialTrailer(TeaserTitle)
  {
    NotOfficialWithoutL(TeaserTitle);
  }

  /** The request of the YouTube debug test. */
  const DebugRequest := Requests.TrailerRequest("Inception", Some("2010"), None, None)

  lemma DebugQuery()
    ensures SearchQuery(DebugRequest) == "Inception 2010 official trailer"
  {
  }

  /**
   * The debug test's request, against a search that lists a teaser before the
   * official trailer: the teaser is passed over.
   */
  lemma SearchScenario(search: string -> CallOutcome<seq<Video>>)
    requires search("Inception 2010 official trailer") == Returned([Video("a1", TeaserTitle, ""), Video("b2", TrailerTitle, "")])
    ensures FindTrailer(TrailerAiConfig(None, Some("key")), DebugRequest, search)
         == Success(WatchUrlPrefix + "b2", YoutubeApi, YoutubeConfidence)
  {
    var request := DebugRequest;
    DebugQuery();
    TeaserIsNotOfficial();
    TrailerTitleIsOfficial();
    var items := search(SearchQuery(request)).value;
    assert !IsOfficialTrailer(items[0].title) && IsOfficialTrailer(items[1].title);
    assert FirstOfficial(items) == Some(1);
  }
}
