/**
 * `CompositeTrailerService` (core/impl/CompositeTrailerService.kt): the
 * strategies are consulted in a fixed order and the first success is returned.
 */
module Composite {
  import opened Wrappers
  import opened Results
  import Requests
  import opened Settings
  import opened Calls
  import Gemini
  import YouTube
  import PatternMatching

  /** The three services in the `sources` list. */
  datatype Strategy = GeminiStrategy | YoutubeStrategy | PatternStrategy

  const Sources := [GeminiStrategy, YoutubeStrategy, PatternStrategy]

  /** How one `service.findTrailer(request)` call ends, as the loop sees it. */
  datatype Attempt = Completed(result: TrailerResult) | Threw

  predicate IsSuccess(a: Attempt) {
    a.Completed? && a.result.Success?
  }

  /** What the collaborators of the three services answer for this request. */
  datatype Environment = Environment(
    geminiReply: CallOutcome<Option<string>>,           // the text-generation call
    search: string -> CallOutcome<seq<YouTube.Video>>,  // the video search endpoint
    patternTimedOut: bool)                              // the pattern service's timeout wrapper

  /** One service's answer. The composite builds its Gemini service without a provider. */
  function Consult(config: TrailerAiConfig, request: Requests.TrailerRequest, env: Environment, s: Strategy): (r: Attempt)
    ensures r.Completed? && Valid(r.result)
  {
    match s
      case GeminiStrategy => Completed(Gemini.FindTrailer(config, false, env.geminiReply))
      case YoutubeStrategy => Completed(YouTube.FindTrailer(config, request, env.search))
      case PatternStrategy => Completed(PatternMatching.FindTrailer(request, env.patternTimedOut))
  }

  /** The position of the first source whose attempt succeeds. */
  function FirstSuccessFrom(sources: seq<Strategy>, outcome: Strategy -> Attempt, from: nat): (r: Option<nat>)
    requires from <= |sources|
    ensures r.Some? ==> from <= r.value < |sources| && IsSuccess(outcome(sources[r.value]))
    ensures r.Some? ==> forall j :: from <= j < r.value ==> !IsSuccess(outcome(sources[j]))
    ensures r.None? ==> forall j :: from <= j < |sources| ==> !IsSuccess(outcome(sources[j]))
    decreases |sources| - from
  {
    if from == |sources| then None
    else if IsSuccess(outcome(sources[from])) then Some(from)
    else FirstSuccessFrom(sources, outcome, from + 1)
  }

  /** What the loop returns: the first success unchanged, or `NotFound`. */
  function Resolve(sources: seq<Strategy>, outcome: Strategy -> Attempt): (r: TrailerResult)
    ensures !r.Error?
    ensures r.NotFound? <==> forall j :: 0 <= j < |sources| ==> !IsSuccess(outcome(sources[j]))
  {
    match FirstSuccessFrom(sources, outcome, 0)
      case Some(i) => outcome(sources[i]).result
      case None => NotFound
  }

  /** How many sources the loop consults: up to and including the first success. */
  function ConsultedCount(sources: seq<Strategy>, outcome: Strategy -> Attempt): (n: nat)
    ensures n <= |sources|
  {
    match FirstSuccessFrom(sources, outcome, 0)
      case Some(i) => i + 1
      case None => |sources|
  }

  /**
   * The `for (service in sources)` loop. `consulted` records, in order, every
   * source whose `findTrailer` was called.
   */
  method RunChain(sources: seq<Strategy>, outcome: Strategy -> Attempt)
    returns (result: TrailerResult, ghost consulted: seq<Strategy>)
    ensures result == Resolve(sources, outcome)
    ensures consulted == sources[..ConsultedCount(sources, outcome)]
  {
    consulted := [];
    var i := 0;
    while i < |sources|
      invariant 0 <= i <= |sources|
      invariant consulted == sources[..i]
      invariant forall j :: 0 <= j < i ==> !IsSuccess(outcome(sources[j]))
    {
      var attempt := outcome(sources[i]);
      consulted := consulted + [sources[i]];
      assert sources[..i + 1] == sources[..i] + [sources[i]];
      match attempt {
        case Completed(r) =>
          if r.Success? {
            FirstSuccessAt(sources, outcome, 0, i);
            return r, consulted;
          }
        case Threw =>
      }
      i := i + 1;
    }
    NoSuccess(sources, outcome, 0);
    assert sources[..i] == sources;
    result := NotFound;
  }

  lemma {:induction false} FirstSuccessAt(sources: seq<Strategy>, outcome: Strategy -> Attempt, from: nat, i: nat)
    requires from <= i < |sources| && IsSuccess(outcome(sources[i]))
    requires forall j :: from <= j < i ==> !IsSuccess(outcome(sources[j]))
    ensures FirstSuccessFrom(sources, outcome, from) == Some(i)
    decreases i - from
  {
    if from < i {
      FirstSuccessAt(sources, outcome, from + 1, i);
    }
  }

  lemma NoSuccess(sources: seq<Strategy>, outcome: Strategy -> Attempt, from: nat)
    requires from <= |sources|
    requires forall j :: from <= j < |sources| ==> !IsSuccess(outcome(sources[j]))
    ensures FirstSuccessFrom(sources, outcome, from).None?
  {
  }

  lemma {:induction false} FirstSuccessShift(sources: seq<Strategy>, outcome: Strategy -> Attempt, from: nat)
    requires 1 <= from <= |sources|
    ensures FirstSuccessFrom(sources, outcome, from) ==
      match FirstSuccessFrom(sources[1..], outcome, from - 1)
        case Some(i) => Some(i + 1)
        case None => None
    decreases |sources| - from
  {
    if from < |sources| {
      assert sources[1..][from - 1] == sources[from];
      FirstSuccessShift(sources, outcome, from + 1);
    }
  }

  /** An `Error`, a `NotFound` or an exception from a source just moves the loop on. */
  lemma SkipUnsuccessful(sources: seq<Strategy>, outcome: Strategy -> Attempt)
    requires |sources| >= 1 && !IsSuccess(outcome(sources[0]))
    ensures Resolve(sources, outcome) == Resolve(sources[1..], outcome)
    ensures ConsultedCount(sources, outcome) == 1 + ConsultedCount(sources[1..], outcome)
  {
    FirstSuccessShift(sources, outcome, 1);
  }

  /** The reference order of preference: Gemini, then YouTube, then pattern matching. */
  function Preferred(g: TrailerResult, y: TrailerResult, p: TrailerResult): TrailerResult {
    if g.Success? then g else if y.Success? then y else if p.Success? then p else NotFound
  }

  /** `findTrailer` over the three services. */
  method FindTrailer(config: TrailerAiConfig, request: Requests.TrailerRequest, env: Environment)
    returns (result: TrailerResult, ghost consulted: seq<Strategy>)
    ensures result == Preferred(
      Gemini.FindTrailer(config, false, env.geminiReply),
      YouTube.FindTrailer(config, request, env.search),
      PatternMatching.FindTrailer(request, env.patternTimedOut))
    ensures !result.Error? && Valid(result)
    ensures consulted == Sources[..PreferredCount(
      Gemini.FindTrailer(config, false, env.geminiReply),
      YouTube.FindTrailer(config, request, env.search),
      PatternMatching.FindTrailer(request, env.patternTimedOut))]
  {
    var outcome := s => Consult(config, request, env, s);
    result, consulted := RunChain(Sources, outcome);
    ghost var g := Gemini.FindTrailer(config, false, env.geminiReply);
    ghost var y := YouTube.FindTrailer(config, request, env.search);
    ghost var p := PatternMatching.FindTrailer(request, env.patternTimedOut);
    assert outcome(GeminiStrategy) == Completed(g);
    assert outcome(YoutubeStrategy) == Completed(y);
    assert outcome(PatternStrategy) == Completed(p);
    ChainIsPreferred(outcome, g, y, p);
  }

  /** How many services the reference order consults: up to the first success. */
  function PreferredCount(g: TrailerResult, y: TrailerResult, p: TrailerResult): nat {
    if g.Success? then 1 else if y.Success? then 2 else 3
  }

  /** The loop over the three sources agrees with the reference order of preference. */
  lemma ChainIsPreferred(outcome: Strategy -> Attempt, g: TrailerResult, y: TrailerResult, p: TrailerResult)
    requires outcome(GeminiStrategy) == Completed(g)
    requires outcome(YoutubeStrategy) == Completed(y)
    requires outcome(PatternStrategy) == Completed(p)
    ensures Resolve(Sources, outcome) == Preferred(g, y, p)
    ensures ConsultedCount(Sources, outcome) == PreferredCount(g, y, p)
  {
    if g.Success? {
      FirstSuccessAt(Sources, outcome, 0, 0);
    } else if y.Success? {
      FirstSuccessAt(Sources, outcome, 0, 1);
    } else if p.Success? {
      FirstSuccessAt(Sources, outcome, 0, 2);
    } else {
      NoSuccess(Sources, outcome, 0);
    }
  }

  /** Every strategy erroring still yields `NotFound`, not an error. */
  lemma AllErrorsGiveNotFound(g: TrailerResult, y: TrailerResult, p: TrailerResult)
    requires g.Error? && y.Error? && p.Error?
    ensures Preferred(g, y, p) == NotFound
  {
  }

  /**
   * The fallback-chain test: with the text service and the video search not
   * succeeding, "Inception" is resolved from the pattern table.
   */
  lemma FallbackScenario(config: TrailerAiConfig, env: Environment)
    requires !Gemini.FindTrailer(config, false, env.geminiReply).Success?
    requires !YouTube.FindTrailer(config, Requests.TrailerRequest(PatternMatching.InceptionTitle, None, None, None), env.search).Success?
    requires !env.patternTimedOut
    ensures var request := Requests.TrailerRequest(PatternMatching.InceptionTitle, None, None, None);
      Preferred(
        Gemini.FindTrailer(config, false, env.geminiReply),
        YouTube.FindTrailer(config, request, env.search),
        PatternMatching.FindTrailer(request, env.patternTimedOut))
      == Success(WatchUrlPrefix + "YoHD9XEInc0", PatternMatching, PatternConfidence)
  {
    PatternMatching.InceptionScenario();
  }
}
