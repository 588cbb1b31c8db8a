/**
 * `PatternMatchingService` (core/impl/PatternMatchingService.kt): a fixed table
 * of known trailers, searched by exact key and then by containment.
 */
module PatternMatching {
  import opened Wrappers
  import opened Text
  import opened Exceptions
  import opened Results
  import Requests

  /** `knownTrailers`, in declaration order: (lower-case title, video id). */
  const KnownTrailers: seq<(string, string)> := [
    ("inception", "YoHD9XEInc0"),
    ("the dark knight", "EXeTwQWrcwY"),
    ("interstellar", "2LqzF5WauAw"),
    ("avatar", "5PSNL1qE6VY"),
    ("avengers", "eOrNdBpGMv8"),
    ("joker", "zAGVQLHvwOY"),
    ("parasite", "5xH0HfJHsaY"),
    ("1917", "UcmZNQ_8y3Y"),
    ("dune", "Way9Dexny3w")
  ]

  const TimeoutMessage := "Pattern matching timed out"

  function Key(i: nat): string
    requires i < |KnownTrailers|
  {
    KnownTrailers[i].0
  }

  /** The table's keys are pairwise distinct, so it is a map. */
  lemma KeysDistinct()
    ensures forall i, j :: 0 <= i < j < |KnownTrailers| ==> Key(i) != Key(j)
  {
  }

  /** `request.movieTitle.lowercase().trim()`. */
  function MovieKey(title: string): (k: string)
    ensures IsTrimmed(k)
    ensures k == [] <==> IsBlank(title)
    ensures forall c :: c in k ==> !('A' <= c <= 'Z')
  {
    LowerKeepsBlank(title);
    LowerHasNoUpper(title);
    TrimKeepsChars(Lower(title));
    Trim(Lower(title))
  }

  /** The partial-match test: either string contains the other. */
  function Related(movieKey: string, key: string): (b: bool)
    ensures movieKey == key ==> b
    ensures movieKey == [] || key == [] ==> b
  {
    assert OccursAt(key, key, 0) && OccursAt(key, [], 0) && OccursAt(movieKey, [], 0);
    Contains(movieKey, key) || Contains(key, movieKey)
  }

  /** `knownTrailers[movieKey]`: the index of the entry with that key. */
  function ExactFrom(movieKey: string, from: nat): (r: Option<nat>)
    requires from <= |KnownTrailers|
    ensures r.Some? ==> from <= r.value < |KnownTrailers| && Key(r.value) == movieKey
    ensures r.None? ==> forall j :: from <= j < |KnownTrailers| ==> Key(j) != movieKey
    decreases |KnownTrailers| - from
  {
    if from == |KnownTrailers| then None
    else if Key(from) == movieKey then Some(from)
    else ExactFrom(movieKey, from + 1)
  }

  /** The `forEach` over the keys with early return: the first related entry. */
  function FirstRelatedFrom(movieKey: string, from: nat): (r: Option<nat>)
    requires from <= |KnownTrailers|
    ensures r.Some? ==> from <= r.value < |KnownTrailers| && Related(movieKey, Key(r.value))
    ensures r.Some? ==> forall j :: from <= j < r.value ==> !Related(movieKey, Key(j))
    ensures r.None? ==> forall j :: from <= j < |KnownTrailers| ==> !Related(movieKey, Key(j))
    decreases |KnownTrailers| - from
  {
    if from == |KnownTrailers| then None
    else if Related(movieKey, Key(from)) then Some(from)
    else FirstRelatedFrom(movieKey, from + 1)
  }

  /** The table entry `findTrailerByPattern` settles on. */
  function MatchIndex(title: string): (r: Option<nat>)
    ensures r.Some? ==> r.value < |KnownTrailers| && Related(MovieKey(title), Key(r.value))
    ensures r.None? <==> forall j :: 0 <= j < |KnownTrailers| ==> !Related(MovieKey(title), Key(j))
  {
    var movieKey := MovieKey(title);
    match ExactFrom(movieKey, 0)
      case Some(i) => Some(i)
      case None => FirstRelatedFrom(movieKey, 0)
  }

  /** `findTrailerByPattern`. */
  function TrailerUrlByPattern(title: string): (r: Option<string>)
    ensures r.Some? <==> exists i :: 0 <= i < |KnownTrailers| && Related(MovieKey(title), Key(i))
    ensures r.Some? ==> exists i :: 0 <= i < |KnownTrailers| && r.value == WatchUrlPrefix + KnownTrailers[i].1
  {
    match MatchIndex(title)
      case Some(i) =>
        assert Related(MovieKey(title), Key(i)) by {
          assert OccursAt(Key(i), Key(i), 0);
        }
        Some(WatchUrlPrefix + KnownTrailers[i].1)
      case None => None
  }

  /** An exact hit wins over every containment match, wherever it sits in the table. */
  lemma ExactMatchFirst(title: string, i: nat)
    requires i < |KnownTrailers| && MovieKey(title) == Key(i)
    ensures TrailerUrlByPattern(title) == Some(WatchUrlPrefix + KnownTrailers[i].1)
  {
    KeysDistinct();
  }

  /** Without an exact hit, the first related key in table order wins. */
  lemma FirstRelatedWins(title: string, i: nat)
    requires forall j :: 0 <= j < |KnownTrailers| ==> Key(j) != MovieKey(title)
    requires i < |KnownTrailers| && Related(MovieKey(title), Key(i))
    requires forall j :: 0 <= j < i ==> !Related(MovieKey(title), Key(j))
    ensures TrailerUrlByPattern(title) == Some(WatchUrlPrefix + KnownTrailers[i].1)
  {
    var k := MovieKey(title);
    var e := ExactFrom(k, 0);
    assert e.None? by {
      if e.Some? {
        assert false;
      }
    }
    var r := FirstRelatedFrom(k, 0);
    assert r == Some(i) by {
      if r.None? {
        assert false;
      } else if r.value < i {
        assert false;
      } else if r.value > i {
        assert false;
      }
    }
    assert MatchIndex(title) == Some(i);
  }

  /** `findTrailer`: `timedOut` says whether the `withTimeout` wrapper fired. */
  function FindTrailer(request: Requests.TrailerRequest, timedOut: bool): (r: TrailerResult)
    ensures Valid(r)
    ensures r.Error? <==> timedOut
    ensures r.Error? ==> r.exception == TrailerException(Timeout, TimeoutMessage)
    ensures r.Success? ==> r.source == PatternMatching && r.confidence == PatternConfidence
    ensures !timedOut ==> (r.Success? <==> TrailerUrlByPattern(request.movieTitle).Some?)
    ensures r.Success? ==> r.url == TrailerUrlByPattern(request.movieTitle).value
  {
    if timedOut then Error(TrailerException(Timeout, TimeoutMessage))
    else match TrailerUrlByPattern(request.movieTitle)
      case Some(url) =>
        NotBlankAt(url, 0);
        Success(url, PatternMatching, PatternConfidence)
      case None => NotFound
  }

  // ---------------------------------------------------------------------
  // Scenarios

  const InceptionTitle := "Inception"

  lemma InceptionKey()
    ensures MovieKey(InceptionTitle) == Key(0)
  {
    assert Lower(InceptionTitle) == "inception";
    assert [] + "inception" + [] == "inception";
    TrimPadded([], "inception", []);
  }

  /** When the table yields a URL and the timer does not fire, that URL is the result. */
  lemma FoundIsSuccess(request: Requests.TrailerRequest, url: string)
    requires TrailerUrlByPattern(request.movieTitle) == Some(url)
    ensures FindTrailer(request, false) == Success(url, PatternMatching, PatternConfidence)
  {
  }

  lemma TableIds()
    ensures KnownTrailers[0].1 == "YoHD9XEInc0" && KnownTrailers[1].1 == "EXeTwQWrcwY"
  {
  }

  lemma InceptionUrl()
    ensures TrailerUrlByPattern(InceptionTitle) == Some(WatchUrlPrefix + "YoHD9XEInc0")
  {
    InceptionKey();
    FirstKeyUrl(InceptionTitle);
  }

  /** Any title whose key is "inception" gets that entry's trailer. */
  lemma FirstKeyUrl(title: string)
    requires MovieKey(title) == Key(0)
    ensures TrailerUrlByPattern(title) == Some(WatchUrlPrefix + "YoHD9XEInc0")
  {
    ExactMatchFirst(title, 0);
    TableIds();
  }

  /** The fallback-chain test: "Inception" resolves to its table entry by exact hit. */
  lemma InceptionScenario()
    ensures FindTrailer(Requests.TrailerRequest(InceptionTitle, None, None, None), false)
         == Success(WatchUrlPrefix + "YoHD9XEInc0", PatternMatching, PatternConfidence)
  {
    InceptionUrl();
    FoundIsSuccess(Requests.TrailerRequest(InceptionTitle, None, None, None), WatchUrlPrefix + "YoHD9XEInc0");
  }

  /** A title already in lower case with no surrounding whitespace is its own key. */
  lemma KeyOfPlainTitle(title: string)
    requires forall i :: 0 <= i < |title| ==> !('A' <= title[i] <= 'Z')
    requires IsTrimmed(title)
    ensures MovieKey(title) == title
  {
    assert Lower(title) == title;
    assert [] + title + [] == title;
    TrimPadded([], title, []);
  }

  lemma KeyLengths()
    ensures forall i :: 0 <= i < |KnownTrailers| ==> |Key(i)| >= 4
  {
  }

  lemma KeysWithoutZ()
    ensures forall i :: 0 <= i < |KnownTrailers| ==> 'z' !in Key(i)
  {
  }

  /** The titles of the pattern-matching debug test, besides "Inception". */
  const DarkKnightTitle := "The Dark Knight"
  const DuneTitle := "Dune"
  const AvatarTitle := "Avatar"

  /** A title that lower-cases to a table key (keys are unpadded) is an exact hit on that entry. */
  lemma ExactTitle(title: string, i: nat)
    requires i < |KnownTrailers| && Lower(title) == Key(i) && IsTrimmed(Key(i))
    ensures TrailerUrlByPattern(title) == Some(WatchUrlPrefix + KnownTrailers[i].1)
  {
    assert [] + Key(i) + [] == Key(i);
    TrimPadded([], Key(i), []);
    ExactMatchFirst(title, i);
  }

  lemma DarkKnightScenario()
    ensures FindTrailer(Requests.TrailerRequest(DarkKnightTitle, None, None, None), false)
         == Success(WatchUrlPrefix + "EXeTwQWrcwY", PatternMatching, PatternConfidence)
  {
    assert Lower(DarkKnightTitle) == Key(1);
    ExactTitle(DarkKnightTitle, 1);
    TableIds();
    FoundIsSuccess(Requests.TrailerRequest(DarkKnightTitle, None, None, None), WatchUrlPrefix + "EXeTwQWrcwY");
  }

  lemma DuneScenario()
    ensures FindTrailer(Requests.TrailerRequest(DuneTitle, None, None, None), false)
         == Success(WatchUrlPrefix + "Way9Dexny3w", PatternMatching, PatternConfidence)
  {
    assert Lower(DuneTitle) == Key(8);
    ExactTitle(DuneTitle, 8);
    assert KnownTrailers[8].1 == "Way9Dexny3w";
    FoundIsSuccess(Requests.TrailerRequest(DuneTitle, None, None, None), WatchUrlPrefix + "Way9Dexny3w");
  }

  lemma AvatarScenario()
    ensures FindTrailer(Requests.TrailerRequest(AvatarTitle, None, None, None), false)
         == Success(WatchUrlPrefix + "5PSNL1qE6VY", PatternMatching, PatternConfidence)
  {
    assert Lower(AvatarTitle) == Key(3);
    ExactTitle(AvatarTitle, 3);
    assert KnownTrailers[3].1 == "5PSNL1qE6VY";
    FoundIsSuccess(Requests.TrailerRequest(AvatarTitle, None, None, None), WatchUrlPrefix + "5PSNL1qE6VY");
  }

  const DarkTitle := "dark"

  lemma DarkKey()
    ensures MovieKey(DarkTitle) == "dark"
  {
    KeyOfPlainTitle(DarkTitle);
  }

  lemma DarkFacts()
    ensures Key(0) != "dark" && Key(1) != "dark"
    ensures !Related("dark", Key(0)) && Related("dark", Key(1))
  {
    assert OccursAt(Key(1), "dark", 4);
    LongerNotContained("dark", Key(0));
    assert 'd' !in Key(0);
    MissingCharNotContained(Key(0), "dark", 0);
  }

  lemma DarkHasNoExactHit()
    ensures forall j :: 0 <= j < |KnownTrailers| ==> Key(j) != "dark"
  {
  }

  /** Any title whose key is "dark" falls through to "the dark knight". */
  lemma DarkKeyUrl(title: string)
    requires MovieKey(title) == "dark"
    ensures TrailerUrlByPattern(title) == Some(WatchUrlPrefix + "EXeTwQWrcwY")
  {
    var k := MovieKey(title);
    assert !Related(k, Key(0)) && Related(k, Key(1)) by {
      DarkFacts();
    }
    assert forall j :: 0 <= j < |KnownTrailers| ==> Key(j) != k by {
      DarkHasNoExactHit();
    }
    assert forall j :: 0 <= j < 1 ==> !Related(k, Key(j));
    FirstRelatedWins(title, 1);
    TableIds();
  }

  /** A shorter title is caught by the reverse containment: "dark" lies inside "the dark knight". */
  lemma PartialTitleScenario()
    ensures TrailerUrlByPattern(DarkTitle) == Some(WatchUrlPrefix + "EXeTwQWrcwY")
  {
    DarkKey();
    DarkKeyUrl(DarkTitle);
  }

  const UnknownTitle := "zzz"

  lemma UnknownTitleKey()
    ensures MovieKey(UnknownTitle) == "zzz"
  {
    KeyOfPlainTitle(UnknownTitle);
  }

  lemma NothingRelatedToZzz()
    ensures forall i :: 0 <= i < |KnownTrailers| ==> !Related("zzz", Key(i))
  {
    KeyLengths();
    KeysWithoutZ();
    forall i | 0 <= i < |KnownTrailers| ensures !Related("zzz", Key(i)) {
      MissingCharNotContained(Key(i), "zzz", 0);
      LongerNotContained("zzz", Key(i));
    }
  }

  /** Any title whose key is "zzz" finds nothing. */
  lemma ZzzKeyNotFound(title: string)
    requires MovieKey(title) == "zzz"
    ensures TrailerUrlByPattern(title).None?
  {
    NothingRelatedToZzz();
  }

  /** A title related to no key by containment finds nothing. */
  lemma UnknownTitleScenario()
    ensures TrailerUrlByPattern(UnknownTitle).None?
  {
    UnknownTitleKey();
    ZzzKeyNotFound(UnknownTitle);
  }
}
