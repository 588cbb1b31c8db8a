/**
 * `GeminiTrailerService` (core/impl/GeminiTrailerService.kt): one trailer lookup
 * through the text-generation provider, and the batch of suggested movies.
 * The provider's reply, the validator's answers and the order in which the
 * concurrent tasks finish are inputs.
 */
module Gemini {
  import opened Wrappers
  import opened Text
  import opened Exceptions
  import opened Results
  import Requests
  import opened Settings
  import opened Calls
  import opened LinkParser
  import opened LinkForms
  import opened SuggestionParser

  const MissingKeyMessage := "Gemini API key not provided"
  const EmptyReplyMessage := "Empty response from Gemini"
  const TimeoutMessage := "Gemini request timed out"
  const FailurePrefix := "Gemini service failed: "
  const UnknownFailure := "Unknown generative AI error"

  /** The service may run: a non-blank key is configured, or a provider was injected. */
  predicate HasCredentials(config: TrailerAiConfig, hasProvider: bool) {
    !IsNullOrBlank(config.geminiApiKey) || hasProvider
  }

  /** The text inspected: an injected provider's reply as given, the API's reply trimmed. */
  function ReplyText(hasProvider: bool, text: Option<string>): (r: Option<string>)
    ensures r.Some? <==> text.Some?
    ensures hasProvider ==> r == text
    ensures !hasProvider && text.Some? ==> IsTrimmed(r.value) && (r.value == [] <==> IsBlank(text.value))
  {
    if hasProvider then text
    else match text
      case None => None
      case Some(t) => Some(Trim(t))
  }

  /** The `catch` block: how each kind of failure of the call is reported. */
  function FailureResult(f: Failure): (r: TrailerResult)
    ensures r.Error?
    ensures f.Raised? ==> r.exception == f.exception
    ensures f.TimedOut? ==> r.exception == TrailerException(Timeout, TimeoutMessage)
    ensures f.Crashed? ==> r.exception.kind == Network && FailurePrefix <= r.exception.message
  {
    match f
      case Raised(e) => Error(e)
      case TimedOut => Error(TrailerException(Timeout, TimeoutMessage))
      case Crashed(m) =>
        var msg := match m case Some(text) => text case None => UnknownFailure;
        Error(TrailerException(Network, FailurePrefix + msg))
  }

  /** `findTrailer`, given the outcome of the provider call. */
  function FindTrailer(config: TrailerAiConfig, hasProvider: bool, reply: CallOutcome<Option<string>>): (r: TrailerResult)
    ensures Valid(r)
    ensures !HasCredentials(config, hasProvider) ==> r == Error(TrailerException(APIKey, MissingKeyMessage))
    ensures HasCredentials(config, hasProvider) && reply.Failed? ==> r == FailureResult(reply.failure)
    ensures HasCredentials(config, hasProvider) && reply.Returned? && IsNullOrBlank(ReplyText(hasProvider, reply.value))
      ==> r == Error(TrailerException(Parse, EmptyReplyMessage))
    ensures r.Success? <==>
      HasCredentials(config, hasProvider) && reply.Returned? && !IsNullOrBlank(ReplyText(hasProvider, reply.value))
      && ExtractYouTubeUrl(ReplyText(hasProvider, reply.value).value).Some?
    ensures r.Success? ==> r.source == GeminiAi && r.confidence == GeminiConfidence && IsCanonicalUrl(r.url)
    ensures r.Success? ==> Some(r.url) == ExtractYouTubeUrl(ReplyText(hasProvider, reply.value).value)
    ensures r.NotFound? ==> reply.Returned? && ExtractYouTubeUrl(ReplyText(hasProvider, reply.value).value).None?
    ensures (HasCredentials(config, hasProvider) && reply.Returned? && !IsNullOrBlank(ReplyText(hasProvider, reply.value))
             && ExtractYouTubeUrl(ReplyText(hasProvider, reply.value).value).None?) ==> r == NotFound
  {
    if !HasCredentials(config, hasProvider) then Error(TrailerException(APIKey, MissingKeyMessage))
    else match reply
      case Failed(f) => FailureResult(f)
      case Returned(t) => TextResult(ReplyText(hasProvider, t))
  }

  /** The `try` body once the reply text is in hand. */
  function TextResult(text: Option<string>): (r: TrailerResult)
    ensures Valid(r)
    ensures IsNullOrBlank(text) ==> r == Error(TrailerException(Parse, EmptyReplyMessage))
    ensures r.Success? <==> !IsNullOrBlank(text) && ExtractYouTubeUrl(text.value).Some?
    ensures r.Success? ==> r.source == GeminiAi && r.confidence == GeminiConfidence && IsCanonicalUrl(r.url)
    ensures r.Success? ==> Some(r.url) == ExtractYouTubeUrl(text.value)
    ensures r.NotFound? ==> text.Some? && ExtractYouTubeUrl(text.value).None?
    ensures !IsNullOrBlank(text) && ExtractYouTubeUrl(text.value).None? ==> r == NotFound
  {
    if IsNullOrBlank(text) then Error(TrailerException(Parse, EmptyReplyMessage))
    else match ExtractYouTubeUrl(text.value)
      case Some(url) =>
        assert url[0] == 'h';
        Success(url, GeminiAi, GeminiConfidence)
      case None => NotFound
  }

  /** A canonical URL has no whitespace at either end, so trimming keeps it. */
  lemma CanonicalUrlTrimmed(url: string)
    requires IsCanonicalUrl(url)
    ensures Trim(url) == url
  {
    assert url[0] == 'h';
    assert IsIdChar(url[|url| - 1]);
    assert [] + url + [] == url;
    TrimPadded([], url, []);
  }

  /** A canonical URL, offered as the reply text, is accepted as it stands. */
  lemma CanonicalTextResult(url: string)
    requires IsCanonicalUrl(url)
    ensures TextResult(Some(url)) == Success(url, GeminiAi, GeminiConfidence)
  {
    var id := url[|CanonicalPrefix|..];
    assert url == CanonicalPrefix + id;
    CanonicalIsFixedPoint(id);
    NotBlankAt(url, 0);
  }

  /** Replying with the URL a lookup found gives the same result again. */
  lemma FindTrailerReplayUrl(config: TrailerAiConfig, hasProvider: bool, reply: CallOutcome<Option<string>>)
    requires FindTrailer(config, hasProvider, reply).Success?
    ensures FindTrailer(config, hasProvider, Returned(Some(FindTrailer(config, hasProvider, reply).url)))
         == FindTrailer(config, hasProvider, reply)
  {
    var r := FindTrailer(config, hasProvider, reply);
    CanonicalUrlTrimmed(r.url);
    assert ReplyText(hasProvider, Some(r.url)) == Some(r.url);
    CanonicalTextResult(r.url);
  }

  const ProviderPreamble := "Sure! " + "Here is " + "the " + "official " + "trailer " + "link: "
  const ProviderClosing := " hope " + "you " + "enjoy " + "it!"

  lemma ProviderReplyExtract()
    ensures ExtractYouTubeUrl(ProviderPreamble + TestUrl + ProviderClosing) == Some(TestUrl)
  {
    var pre, post := ProviderPreamble, ProviderClosing;
    PreambleHasNoY();
    NoLetterY(pre);
    ProviderTextHasNoD();
    ProviderClosingHasNoD();
    NoMarkerWithoutD(pre, post);
    assert pre + TestUrl + post == pre + Link(0, WatchPath, TestId) + post;
    TestIdFacts();
    ExtractEmbeddedLink(pre, 0, WatchPath, TestId, post);
  }

  lemma PreambleHasNoY()
    ensures 'y' !in ProviderPreamble && 'Y' !in ProviderPreamble
  {
  }

  lemma ProviderTextHasNoD()
    ensures 'd' !in ProviderPreamble && 'D' !in ProviderPreamble
  {
  }

  lemma ProviderClosingHasNoD()
    ensures 'd' !in ProviderClosing && 'D' !in ProviderClosing
  {
  }

  lemma NoMarkerWithoutD(pre: string, post: string)
    requires 'd' !in pre && 'D' !in pre && 'd' !in post && 'D' !in post
    ensures !ContainsIgnoreCase(pre + TestUrl + post, NoTrailerMarker)
  {
    assert 'd' !in TestUrl && 'D' !in TestUrl;
    MarkerAbsentWithoutD(pre + TestUrl + post);
  }

  /** The provider test: a chatty reply still yields the official trailer. */
  lemma ProviderReplyScenario(config: TrailerAiConfig)
    ensures FindTrailer(config, true, Returned(Some(ProviderPreamble + TestUrl + ProviderClosing)))
         == Success(TestUrl, GeminiAi, GeminiConfidence)
  {
    ProviderReplyExtract();
    NotBlankAt(ProviderPreamble + TestUrl + ProviderClosing, 0);
  }

  /** A reply that is just the no-trailer marker is a clean `NotFound`, not an error. */
  lemma NoTrailerReplyScenario(config: TrailerAiConfig)
    ensures FindTrailer(config, true, Returned(Some(NoTrailerMarker))) == NotFound
  {
    NotBlankAt(NoTrailerMarker, 0);
    assert NoTrailerMarker[0..|NoTrailerMarker|] == NoTrailerMarker;
    MarkerPresentAt(NoTrailerMarker, 0);
  }

  /** Without a key or provider the call is not made: the reply plays no part. */
  lemma MissingKeyScenario(reply: CallOutcome<Option<string>>)
    ensures FindTrailer(TrailerAiConfig(None, None), false, reply) == Error(TrailerException(APIKey, MissingKeyMessage))
    ensures FindTrailer(TrailerAiConfig(Some("  "), None), false, reply) == Error(TrailerException(APIKey, MissingKeyMessage))
  {
  }

  // ---------------------------------------------------------------------
  // suggestRelevantMovies

  const MaxSuggestions := 5
  const NoTrailerHint := "NO_TRAILER"

  /** What one launched task hears from its collaborators. */
  datatype TaskEnv = TaskEnv(
    validation: CallOutcome<Option<Requests.TrailerRequest>>,  // validator.validateAndGetDetails(title)
    lookup: CallOutcome<Option<string>>)              // the provider's reply if findTrailer is needed

  /** `Pair<TrailerRequest, TrailerResult>`. */
  datatype MovieSuggestion = MovieSuggestion(details: Requests.TrailerRequest, trailer: TrailerResult)

  /** A hint is used as the trailer when it is not blank and not the no-trailer placeholder. */
  predicate IsUsableHint(hint: string) {
    !IsBlank(hint) && hint != NoTrailerHint
  }

  function Take<T>(s: seq<T>, n: nat): (r: seq<T>)
    ensures r == s[..if |s| <= n then |s| else n]
  {
    if |s| <= n then s else s[..n]
  }

  /** The suggestions that get a task: at most five, in reply order; none on any failure. */
  function Candidates(config: TrailerAiConfig, hasProvider: bool, reply: CallOutcome<Option<string>>): (r: seq<Suggestion>)
    ensures |r| <= MaxSuggestions
    ensures !HasCredentials(config, hasProvider) || reply.Failed? ==> r == []
    ensures reply.Returned? && IsNullOrBlank(ReplyText(hasProvider, reply.value)) ==> r == []
    ensures (HasCredentials(config, hasProvider) && reply.Returned? && !IsNullOrBlank(ReplyText(hasProvider, reply.value)))
      ==> r == Take(ParseSuggestions(ReplyText(hasProvider, reply.value).value), MaxSuggestions)
  {
    if !HasCredentials(config, hasProvider) then []
    else match reply
      case Failed(_) => []
      case Returned(t) =>
        var text := ReplyText(hasProvider, t);
        if IsNullOrBlank(text) then [] else Take(ParseSuggestions(text.value), MaxSuggestions)
  }

  /** The body of one task: validated details with a trailer, or nothing. */
  function TaskOutcome(config: TrailerAiConfig, hasProvider: bool, sg: Suggestion, env: TaskEnv): (r: Option<MovieSuggestion>)
    ensures r.Some? <==> env.validation.Returned? && env.validation.value.Some?
    ensures r.Some? ==> r.value.details == env.validation.value.value && Valid(r.value.trailer)
    ensures r.Some? && IsUsableHint(sg.trailer) ==> r.value.trailer == Success(sg.trailer, GeminiAi, GeminiConfidence)
    ensures r.Some? && !IsUsableHint(sg.trailer) ==> r.value.trailer == FindTrailer(config, hasProvider, env.lookup)
  {
    match env.validation
      case Returned(Some(details)) =>
        var trailer :=
          if IsUsableHint(sg.trailer) then Success(sg.trailer, GeminiAi, GeminiConfidence)
          else FindTrailer(config, hasProvider, env.lookup);
        Some(MovieSuggestion(details, trailer))
      case _ => None
  }

  function TaskOutcomes(config: TrailerAiConfig, hasProvider: bool, cands: seq<Suggestion>, envs: seq<TaskEnv>)
    : (r: seq<Option<MovieSuggestion>>)
    requires |envs| == |cands|
    ensures |r| == |cands|
    ensures forall i :: 0 <= i < |cands| ==> r[i] == TaskOutcome(config, hasProvider, cands[i], envs[i])
  {
    seq(|cands|, i requires 0 <= i < |cands| => TaskOutcome(config, hasProvider, cands[i], envs[i]))
  }

  /** Every entry of `order` indexes one of `n` tasks. */
  predicate InRange(order: seq<nat>, n: nat) {
    forall k :: 0 <= k < |order| ==> order[k] < n
  }

  /** What the result list holds once the tasks have finished in the order `order`. */
  function Collect(outs: seq<Option<MovieSuggestion>>, order: seq<nat>): (r: seq<MovieSuggestion>)
    ensures |r| <= |order|
  {
    if order == [] then [] else Contribution(outs, order[0]) + Collect(outs, order[1..])
  }

  /** What the task at index `i` adds: its pair, if it produced one (no task, nothing). */
  function Contribution(outs: seq<Option<MovieSuggestion>>, i: nat): (r: seq<MovieSuggestion>)
    ensures |r| <= 1
    ensures |r| == 1 <==> i < |outs| && outs[i].Some?
  {
    if i < |outs| && outs[i].Some? then [outs[i].value] else []
  }

  function Indices(n: nat): (r: seq<nat>)
    ensures |r| == n && forall i :: 0 <= i < n ==> r[i] == i
  {
    seq(n, i => i)
  }

  /** `order` lists every task index exactly once: a possible completion order. */
  predicate IsOrdering(order: seq<nat>, n: nat) {
    InRange(order, n) && multiset(order) == multiset(Indices(n))
  }

  lemma {:induction false} CollectAppend(outs: seq<Option<MovieSuggestion>>, a: seq<nat>, b: seq<nat>)
    ensures Collect(outs, a + b) == Collect(outs, a) + Collect(outs, b)
  {
    if a == [] {
      assert a + b == b;
    } else {
      assert (a + b)[0] == a[0];
      assert (a + b)[1..] == a[1..] + b;
      CollectAppend(outs, a[1..], b);
    }
  }

  /** Taking the same element out of two orderings of one multiset leaves equal multisets. */
  lemma RemoveMatching(a: seq<nat>, b: seq<nat>, j: nat)
    requires a != [] && j < |b| && b[j] == a[0] && multiset(a) == multiset(b)
    ensures multiset(a[1..]) == multiset(b[..j] + b[j + 1..])
  {
    var x := a[0];
    var m, n := multiset(a[1..]), multiset(b[..j] + b[j + 1..]);
    assert a == [x] + a[1..];
    assert b == b[..j] + [x] + b[j + 1..];
    assert multiset(a) == m + multiset{x};
    assert multiset(b) == n + multiset{x};
    forall e ensures m[e] == n[e] {
      assert (m + multiset{x})[e] == (n + multiset{x})[e];
    }
  }

  lemma CollectCons(outs: seq<Option<MovieSuggestion>>, x: nat, rest: seq<nat>)
    ensures Collect(outs, [x] + rest) == Contribution(outs, x) + Collect(outs, rest)
  {
    var order := [x] + rest;
    assert order[0] == x && order[1..] == rest;
  }

  /** The result list splits around the task at position `j` of the order. */
  lemma CollectSplitAt(outs: seq<Option<MovieSuggestion>>, b: seq<nat>, j: nat)
    requires j < |b|
    ensures Collect(outs, b) == Collect(outs, b[..j]) + Contribution(outs, b[j]) + Collect(outs, b[j + 1..])
  {
    CollectCons(outs, b[j], b[j + 1..]);
    assert b == b[..j] + ([b[j]] + b[j + 1..]);
    CollectAppend(outs, b[..j], [b[j]] + b[j + 1..]);
  }

  /** Up to order, the result list is the contribution of any one task plus that of the others. */
  lemma CollectMoveOut(outs: seq<Option<MovieSuggestion>>, b: seq<nat>, j: nat)
    requires j < |b|
    ensures multiset(Collect(outs, b))
         == multiset(Contribution(outs, b[j])) + multiset(Collect(outs, b[..j] + b[j + 1..]))
  {
    CollectSplitAt(outs, b, j);
    CollectAppend(outs, b[..j], b[j + 1..]);
  }

  /** Which results are collected does not depend on the completion order; only their order does. */
  lemma {:induction false} CollectPermutation(outs: seq<Option<MovieSuggestion>>, a: seq<nat>, b: seq<nat>)
    requires multiset(a) == multiset(b)
    ensures multiset(Collect(outs, a)) == multiset(Collect(outs, b))
    decreases |a|
  {
    if a == [] {
      assert |b| == |multiset(b)| == 0;
    } else {
      assert a[0] in multiset(b);
      var j :| 0 <= j < |b| && b[j] == a[0];
      RemoveMatching(a, b, j);
      CollectMoveOut(outs, b, j);
      CollectPermutation(outs, a[1..], b[..j] + b[j + 1..]);
    }
  }

  /** Tasks whose validation gives details all contribute when none is dropped by the cap. */
  lemma {:induction false} CollectCount(outs: seq<Option<MovieSuggestion>>, order: seq<nat>)
    requires InRange(order, |outs|)
    requires forall k :: 0 <= k < |order| ==> outs[order[k]].Some?
    ensures |Collect(outs, order)| == |order|
  {
    if order != [] {
      CollectCount(outs, order[1..]);
    }
  }

  /** A non-blank reply from a provider offers the first five of its parsed suggestions. */
  lemma ProviderCandidates(config: TrailerAiConfig, text: string)
    requires !IsBlank(text)
    ensures Candidates(config, true, Returned(Some(text))) == Take(ParseSuggestions(text), MaxSuggestions)
  {
  }

  /** A reply made of formatted lines yields its first five suggestions as the candidates, in order. */
  lemma FormattedReplyCandidates(config: TrailerAiConfig, sgs: seq<Suggestion>)
    requires |sgs| >= 1
    requires forall i :: 0 <= i < |sgs| ==> IsWellFormed(sgs[i])
    ensures Candidates(config, true, Returned(Some(JoinLines(FormatLines(sgs))))) == Take(sgs, MaxSuggestions)
  {
    FormattedReplyNotBlank(sgs);
    ProviderCandidates(config, JoinLines(FormatLines(sgs)));
    ParseFormattedResponse(sgs);
  }

  /** The task prefix `order[..k + 1]` collects what `order[..k]` did plus the task `order[k]`. */
  lemma CollectStep(outs: seq<Option<MovieSuggestion>>, order: seq<nat>, k: nat)
    requires k < |order|
    ensures Collect(outs, order[..k + 1]) == Collect(outs, order[..k]) + Contribution(outs, order[k])
  {
    var i := order[k];
    assert order[..k + 1] == order[..k] + [i];
    CollectAppend(outs, order[..k], [i]);
    assert [i][1..] == [];
  }

  /**
   * What the collected list holds for any completion order: at most five
   * pairs, each with a valid trailer, and the same pairs as in launch order.
   */
  lemma CollectedFacts(config: TrailerAiConfig, hasProvider: bool, reply: CallOutcome<Option<string>>,
                       envs: seq<TaskEnv>, order: seq<nat>)
    requires |envs| == |Candidates(config, hasProvider, reply)|
    requires IsOrdering(order, |envs|)
    ensures var outs := TaskOutcomes(config, hasProvider, Candidates(config, hasProvider, reply), envs);
      && |Collect(outs, order)| <= MaxSuggestions
      && (forall i :: 0 <= i < |Collect(outs, order)| ==> Valid(Collect(outs, order)[i].trailer))
      && multiset(Collect(outs, order)) == multiset(Collect(outs, Indices(|envs|)))
  {
    var outs := TaskOutcomes(config, hasProvider, Candidates(config, hasProvider, reply), envs);
    assert |order| == |multiset(order)| == |envs|;
    CollectPermutation(outs, order, Indices(|envs|));
    ValidCollected(outs, order);
  }

  /**
   * `suggestRelevantMovies`: the candidates of the reply get one task each,
   * and the tasks finish in the order `order`.
   */
  method SuggestRelevantMovies(
    config: TrailerAiConfig, hasProvider: bool, reply: CallOutcome<Option<string>>,
    envs: seq<TaskEnv>, order: seq<nat>) returns (results: seq<MovieSuggestion>)
    requires |envs| == |Candidates(config, hasProvider, reply)|
    requires IsOrdering(order, |envs|)
    ensures results == Collect(TaskOutcomes(config, hasProvider, Candidates(config, hasProvider, reply), envs), order)
    ensures |results| <= MaxSuggestions
    ensures forall i :: 0 <= i < |results| ==> Valid(results[i].trailer)
    ensures multiset(results)
         == multiset(Collect(TaskOutcomes(config, hasProvider, Candidates(config, hasProvider, reply), envs), Indices(|envs|)))
  {
    var candidates := Candidates(config, hasProvider, reply);
    results := RunTasks(config, hasProvider, candidates, envs, order);
    CollectedFacts(config, hasProvider, reply, envs, order);
  }

  /**
   * The launched tasks of `suggestRelevantMovies`, finishing in the order
   * `order`: each appends its pair to the shared list while it holds fewer than five.
   */
  method RunTasks(config: TrailerAiConfig, hasProvider: bool, candidates: seq<Suggestion>,
                  envs: seq<TaskEnv>, order: seq<nat>) returns (results: seq<MovieSuggestion>)
    requires |envs| == |candidates| <= MaxSuggestions
    requires IsOrdering(order, |envs|)
    ensures results == Collect(TaskOutcomes(config, hasProvider, candidates, envs), order)
  {
    var outs := TaskOutcomes(config, hasProvider, candidates, envs);
    assert |order| == |multiset(order)| == |envs|;
    results := [];
    var k := 0;
    while k < |order|
      invariant 0 <= k <= |order|
      invariant results == Collect(outs, order[..k])
    {
      var i := order[k];
      var outcome := TaskOutcome(config, hasProvider, candidates[i], envs[i]);
      assert outcome == outs[i];
      CollectStep(outs, order, k);
      if outcome.Some? && |results| < MaxSuggestions {
        results := results + [outcome.value];
      }
      k := k + 1;
    }
    assert order[..k] == order;
  }

  lemma {:induction false} ValidCollected(outs: seq<Option<MovieSuggestion>>, order: seq<nat>)
    requires forall i :: 0 <= i < |outs| && outs[i].Some? ==> Valid(outs[i].value.trailer)
    ensures forall i :: 0 <= i < |Collect(outs, order)| ==> Valid(Collect(outs, order)[i].trailer)
  {
    if order != [] {
      ValidCollected(outs, order[1..]);
    }
  }
}
