/**
 * `extractYouTubeUrl` (GeminiTrailerService.kt): finds a YouTube link in free
 * text and normalises it to the canonical watch URL.
 *
 * The regular expression
 *   (https?://)?(www\.)?(youtube\.com/watch\?v=|youtu\.be/)([a-zA-Z0-9_-]{11})
 * with IGNORE_CASE is modelled as the engine runs it: leftmost start position,
 * and at each start the alternatives in backtracking order. The lemmas then show
 * that the result only depends on the first place where a link path with an
 * 11-character id begins.
 */
module LinkParser {
  import opened Wrappers
  import opened Text

  /** Any letter case of this marker means "the model found no trailer". */
  const NoTrailerMarker := "NO_TRAILER_FOUND"
  /** The two link paths the expression accepts. */
  const WatchPath := "youtube.com/watch?v="
  const ShortPath := "youtu.be/"
  /** The normalised form every extracted link takes, before the id. */
  const CanonicalPrefix := "https://www." + WatchPath
  const IdLength := 11
  /** `(https?://)?(www\.)?`, in the order a backtracking matcher tries them. */
  const OptionalPrefixes := ["https://www.", "https://", "http://www.", "http://", "www.", ""]

  /** `[a-zA-Z0-9_-]` (the same set with IGNORE_CASE). */
  predicate IsIdChar(c: char) {
    'a' <= c <= 'z' || 'A' <= c <= 'Z' || '0' <= c <= '9' || c == '_' || c == '-'
  }

  predicate IsVideoId(id: string) {
    |id| == IdLength && forall k :: 0 <= k < |id| ==> IsIdChar(id[k])
  }

  /** `s` continues at `i` with the lower-case literal `lit`, ignoring case. */
  predicate MatchesAt(s: string, i: nat, lit: string) {
    i + |lit| <= |s| && Lower(s[i..i + |lit|]) == lit
  }

  /** `([a-zA-Z0-9_-]{11})` at `i`: the id, if the next 11 characters are id characters. */
  function IdAt(s: string, i: nat): (r: Option<string>)
    ensures r.Some? ==> IsVideoId(r.value) && i + IdLength <= |s| && r.value == s[i..i + IdLength]
  {
    if i + IdLength <= |s| && forall k :: i <= k < i + IdLength ==> IsIdChar(s[k])
    then Some(s[i..i + IdLength]) else None
  }

  /** `(youtube\.com/watch\?v=|youtu\.be/)([a-zA-Z0-9_-]{11})` at `q`: group 4. */
  function LinkAt(s: string, q: nat): (r: Option<string>)
    ensures r.Some? ==> IsVideoId(r.value)
  {
    if MatchesAt(s, q, WatchPath) && IdAt(s, q + |WatchPath|).Some? then IdAt(s, q + |WatchPath|)
    else if MatchesAt(s, q, ShortPath) then IdAt(s, q + |ShortPath|)
    else None
  }

  /** The whole expression anchored at `p`, trying the optional prefixes from index `k` on. */
  function MatchWithPrefix(s: string, p: nat, k: nat): (r: Option<string>)
    ensures r.Some? ==> IsVideoId(r.value)
    decreases |OptionalPrefixes| - k
  {
    if k >= |OptionalPrefixes| then None
    else if MatchesAt(s, p, OptionalPrefixes[k]) && LinkAt(s, p + |OptionalPrefixes[k]|).Some?
    then LinkAt(s, p + |OptionalPrefixes[k]|)
    else MatchWithPrefix(s, p, k + 1)
  }

  function MatchAt(s: string, p: nat): Option<string> {
    MatchWithPrefix(s, p, 0)
  }

  /** `Regex.find` from `p`: the match with the leftmost start. */
  function FindFrom(s: string, p: nat): (r: Option<string>)
    ensures r.Some? ==> IsVideoId(r.value)
    decreases |s| + 1 - p
  {
    if p > |s| then None
    else if MatchAt(s, p).Some? then MatchAt(s, p)
    else FindFrom(s, p + 1)
  }

  /** The normalised form every extracted link takes. */
  predicate IsCanonicalUrl(url: string) {
    |url| == |CanonicalPrefix| + IdLength && url[..|CanonicalPrefix|] == CanonicalPrefix
      && IsVideoId(url[|CanonicalPrefix|..])
  }

  /** `extractYouTubeUrl`: the marker wins; otherwise the first link, normalised. */
  function ExtractYouTubeUrl(text: string): (r: Option<string>)
    ensures ContainsIgnoreCase(text, NoTrailerMarker) ==> r == None
    ensures r.Some? ==> IsCanonicalUrl(r.value)
  {
    if ContainsIgnoreCase(text, NoTrailerMarker) then None
    else match FindFrom(text, 0)
      case Some(id) => Some(CanonicalPrefix + id)
      case None => None
  }

  // ---------------------------------------------------------------------
  // The reference: the first link occurrence

  /** `q` is where the first link path followed by an id starts. */
  predicate IsFirstLink(s: string, q: nat) {
    LinkAt(s, q).Some? && forall q': nat :: q' < q ==> LinkAt(s, q').None?
  }

  /** The text holds no link path followed by an id. */
  ghost predicate HasNoLink(s: string) {
    forall q: nat :: LinkAt(s, q).None?
  }

  /** Both link paths begin with the letter y. */
  lemma LinkStartsWithY(s: string, q: nat)
    requires LinkAt(s, q).Some?
    ensures q < |s| && LowerChar(s[q]) == 'y'
  {
    if MatchesAt(s, q, WatchPath) {
      assert Lower(s[q..q + |WatchPath|])[0] == 'y';
    } else {
      assert Lower(s[q..q + |ShortPath|])[0] == 'y';
    }
  }

  /** No optional prefix contains the letter y. */
  lemma PrefixesHaveNoY(k: nat, j: nat)
    requires k < |OptionalPrefixes| && j < |OptionalPrefixes[k]|
    ensures OptionalPrefixes[k][j] != 'y'
  {
  }

  /** A character covered by an optional prefix is never a y. */
  lemma PrefixCharNotY(s: string, p: nat, k: nat, j: nat)
    requires k < |OptionalPrefixes| && MatchesAt(s, p, OptionalPrefixes[k]) && j < |OptionalPrefixes[k]|
    ensures LowerChar(s[p + j]) != 'y'
  {
    var pre := OptionalPrefixes[k];
    assert Lower(s[p..p + |pre|])[j] == LowerChar(s[p + j]);
    PrefixesHaveNoY(k, j);
  }

  /** No link starts before the first one. */
  lemma FirstLinkIsFirst(s: string, q: nat, c: nat)
    requires IsFirstLink(s, q) && LinkAt(s, c).Some?
    ensures q <= c
  {
  }

  /** A match anchored at or before the first link has that link's id. */
  lemma {:induction false} MatchBeforeFirstLink(s: string, p: nat, q: nat, k: nat)
    requires IsFirstLink(s, q) && p <= q
    ensures MatchWithPrefix(s, p, k).Some? ==> MatchWithPrefix(s, p, k) == LinkAt(s, q)
    decreases |OptionalPrefixes| - k
  {
    if k < |OptionalPrefixes| {
      var c := p + |OptionalPrefixes[k]|;
      if MatchesAt(s, p, OptionalPrefixes[k]) && LinkAt(s, c).Some? {
        FirstLinkIsFirst(s, q, c);
        if c > q {
          LinkStartsWithY(s, q);
          PrefixCharNotY(s, p, k, q - p);
          assert false;
        }
      } else {
        MatchBeforeFirstLink(s, p, q, k + 1);
      }
    }
  }

  /** Where a link starts, the match anchored there exists. */
  lemma {:induction false} MatchAtLink(s: string, q: nat, k: nat)
    requires LinkAt(s, q).Some? && k < |OptionalPrefixes|
    ensures MatchWithPrefix(s, q, k).Some?
    decreases |OptionalPrefixes| - k
  {
    LinkStartsWithY(s, q);
    if k + 1 < |OptionalPrefixes| {
      MatchAtLink(s, q, k + 1);
    }
  }

  /** Without any link no anchored match exists. */
  lemma {:induction false} NoMatchWithoutLink(s: string, p: nat, k: nat)
    requires HasNoLink(s)
    ensures MatchWithPrefix(s, p, k).None?
    decreases |OptionalPrefixes| - k
  {
    if k < |OptionalPrefixes| {
      assert LinkAt(s, p + |OptionalPrefixes[k]|).None?;
      NoMatchWithoutLink(s, p, k + 1);
    }
  }

  lemma {:induction false} FindReachesFirstLink(s: string, p: nat, q: nat)
    requires IsFirstLink(s, q) && p <= q
    ensures FindFrom(s, p) == LinkAt(s, q)
    decreases q - p
  {
    LinkStartsWithY(s, q);
    MatchBeforeFirstLink(s, p, q, 0);
    if MatchAt(s, p).None? {
      if p == q {
        MatchAtLink(s, q, 0);
      } else {
        FindReachesFirstLink(s, p + 1, q);
      }
    }
  }

  lemma {:induction false} FindWithoutLink(s: string, p: nat)
    requires HasNoLink(s)
    ensures FindFrom(s, p) == None
    decreases |s| + 1 - p
  {
    if p <= |s| {
      NoMatchWithoutLink(s, p, 0);
      FindWithoutLink(s, p + 1);
    }
  }

  /** Without the marker, the result is the canonical URL of the first link's id. */
  lemma ExtractFirstLink(text: string, q: nat)
    requires !ContainsIgnoreCase(text, NoTrailerMarker)
    requires IsFirstLink(text, q)
    ensures ExtractYouTubeUrl(text) == Some(CanonicalPrefix + LinkAt(text, q).value)
  {
    FindReachesFirstLink(text, 0, q);
  }

  /** Without a link there is no result. */
  lemma ExtractNoLink(text: string)
    requires HasNoLink(text)
    ensures ExtractYouTubeUrl(text) == None
  {
    FindWithoutLink(text, 0);
  }

  /** Every result is the canonical prefix followed by an 11-character id from the text. */
  lemma {:induction false} ExtractShape(text: string)
    ensures ExtractYouTubeUrl(text).Some? ==>
      exists q: nat :: IsFirstLink(text, q) && ExtractYouTubeUrl(text) == Some(CanonicalPrefix + LinkAt(text, q).value)
    ensures ExtractYouTubeUrl(text).Some? ==> !ContainsIgnoreCase(text, NoTrailerMarker)
  {
    if ExtractYouTubeUrl(text).Some? {
      if HasNoLink(text) {
        ExtractNoLink(text);
      } else {
        var q := FirstLinkFrom(text, 0);
        ExtractFirstLink(text, q);
      }
    }
  }

  /** Locates the first link at or after `from`, given that none lies before `from`. */
  lemma {:induction false} FirstLinkFrom(s: string, from: nat) returns (q: nat)
    requires !HasNoLink(s)
    requires forall q': nat :: q' < from ==> LinkAt(s, q').None?
    ensures IsFirstLink(s, q)
    decreases |s| + 1 - from
  {
    if LinkAt(s, from).Some? {
      q := from;
    } else {
      assert from <= |s| by {
        var w: nat :| LinkAt(s, w).Some?;
        LinkStartsWithY(s, w);
      }
      q := FirstLinkFrom(s, from + 1);
    }
  }
}

module LinkForms {
  import opened Wrappers
  import opened Text
  import opened LinkParser

  /** A link as it can be written: an optional prefix, a path, an id. */
  function Link(k: nat, path: string, id: string): string
    requires k < |OptionalPrefixes|
  {
    OptionalPrefixes[k] + path + id
  }

  predicate IsLinkPath(path: string) {
    path == WatchPath || path == ShortPath
  }

  lemma LowerUnchanged(s: string)
    requires forall i :: 0 <= i < |s| ==> !('A' <= s[i] <= 'Z')
    ensures Lower(s) == s
  {
  }

  /** Eleven id characters written at `p` are read back as the id. */
  lemma IdAtWritten(text: string, p: nat, id: string)
    requires IsVideoId(id) && p + |id| <= |text| && text[p..p + |id|] == id
    ensures IdAt(text, p) == Some(id)
  {
    forall k | p <= k < p + IdLength ensures IsIdChar(text[k]) {
      assert text[k] == text[p..p + |id|][k - p];
    }
  }

  /** A path written in lower case at `q` is matched there. */
  lemma PathAtWritten(text: string, q: nat, path: string)
    requires IsLinkPath(path) && q + |path| <= |text| && text[q..q + |path|] == path
    ensures MatchesAt(text, q, path)
  {
    LowerUnchanged(path);
  }

  /** Where the short path matches, the watch path cannot: they differ at index 5. */
  lemma ShortExcludesWatch(text: string, q: nat)
    requires MatchesAt(text, q, ShortPath)
    ensures !MatchesAt(text, q, WatchPath)
  {
    assert LowerChar(text[q + 5]) == '.' by {
      assert Lower(text[q..q + |ShortPath|])[5] == '.';
    }
    if q + |WatchPath| <= |text| {
      assert Lower(text[q..q + |WatchPath|])[5] == LowerChar(text[q + 5]);
    }
  }

  /** At the start of a written link, the link parser sees exactly its id. */
  lemma LinkAtWrittenLink(text: string, q: nat, path: string, id: string)
    requires IsLinkPath(path) && IsVideoId(id)
    requires q + |path| + |id| <= |text| && text[q..q + |path| + |id|] == path + id
    ensures LinkAt(text, q) == Some(id)
  {
    var written := text[q..q + |path| + |id|];
    assert text[q..q + |path|] == written[..|path|] == path;
    assert text[q + |path|..q + |path| + |id|] == written[|path|..] == id;
    PathAtWritten(text, q, path);
    IdAtWritten(text, q + |path|, id);
    if path == ShortPath {
      ShortExcludesWatch(text, q);
    }
  }

  /** No link starts at a character other than a y. */
  lemma NoLinkWithoutY(s: string, q: nat)
    requires q < |s| ==> LowerChar(s[q]) != 'y'
    ensures LinkAt(s, q).None?
  {
    if LinkAt(s, q).Some? {
      LinkStartsWithY(s, q);
    }
  }

  /** Text with no y in it, followed by an optional prefix, holds no link start. */
  lemma NoLinkBeforePrefix(text: string, pre: string, k: nat)
    requires k < |OptionalPrefixes|
    requires |pre| + |OptionalPrefixes[k]| <= |text|
    requires text[..|pre| + |OptionalPrefixes[k]|] == pre + OptionalPrefixes[k]
    requires forall j :: 0 <= j < |pre| ==> LowerChar(pre[j]) != 'y'
    ensures forall q: nat :: q < |pre| + |OptionalPrefixes[k]| ==> LinkAt(text, q).None?
  {
    var prefix := OptionalPrefixes[k];
    forall q: nat | q < |pre| + |prefix| ensures LinkAt(text, q).None? {
      assert text[q] == (pre + prefix)[q];
      if q >= |pre| {
        PrefixesHaveNoY(k, q - |pre|);
      }
      NoLinkWithoutY(text, q);
    }
  }

  /** A link of any accepted form, after text with no y in it, normalises to its id. */
  lemma ExtractEmbeddedLink(pre: string, k: nat, path: string, id: string, post: string)
    requires k < |OptionalPrefixes| && IsLinkPath(path) && IsVideoId(id)
    requires forall j :: 0 <= j < |pre| ==> LowerChar(pre[j]) != 'y'
    requires !ContainsIgnoreCase(pre + Link(k, path, id) + post, NoTrailerMarker)
    ensures ExtractYouTubeUrl(pre + Link(k, path, id) + post) == Some(CanonicalPrefix + id)
  {
    var prefix := OptionalPrefixes[k];
    var text := pre + Link(k, path, id) + post;
    var q := |pre| + |prefix|;
    assert text == (pre + prefix) + (path + id) + post;
    assert text[q..q + |path| + |id|] == path + id;
    assert text[..q] == pre + prefix;
    LinkAtWrittenLink(text, q, path, id);
    NoLinkBeforePrefix(text, pre, k);
    ExtractFirstLink(text, q);
  }

  /** The marker cannot occur in a text that misses one of its letters in both cases. */
  lemma MarkerAbsentWithout(text: string, j: nat)
    requires j < |NoTrailerMarker|
    requires forall i :: 0 <= i < |text| ==> LowerChar(text[i]) != LowerChar(NoTrailerMarker[j])
    ensures !ContainsIgnoreCase(text, NoTrailerMarker)
  {
    MissingCharNotContained(Lower(text), Lower(NoTrailerMarker), j);
  }

  /** A text with no letter n in either case cannot contain the marker. */
  lemma MarkerAbsentWithoutN(text: string)
    requires 'n' !in text && 'N' !in text
    ensures !ContainsIgnoreCase(text, NoTrailerMarker)
  {
    forall i | 0 <= i < |text| ensures LowerChar(text[i]) != LowerChar(NoTrailerMarker[0]) {
      assert text[i] != 'n' && text[i] != 'N';
    }
    MarkerAbsentWithout(text, 0);
  }

  /** Text with no letter y in either case can precede a link without being part of it. */
  lemma NoLetterY(pre: string)
    requires 'y' !in pre && 'Y' !in pre
    ensures forall j :: 0 <= j < |pre| ==> LowerChar(pre[j]) != 'y'
  {
    forall j | 0 <= j < |pre| ensures LowerChar(pre[j]) != 'y' {
      assert pre[j] != 'y' && pre[j] != 'Y';
    }
  }

  /** A text with no letter d in either case cannot contain the marker. */
  lemma MarkerAbsentWithoutD(text: string)
    requires 'd' !in text && 'D' !in text
    ensures !ContainsIgnoreCase(text, NoTrailerMarker)
  {
    forall i | 0 <= i < |text| ensures LowerChar(text[i]) != LowerChar(NoTrailerMarker[15]) {
      assert text[i] != 'd' && text[i] != 'D';
    }
    MarkerAbsentWithout(text, 15);
  }

  /** The watch link with both optional prefixes is the canonical URL itself. */
  lemma WatchLinkIsCanonical(id: string)
    ensures Link(0, WatchPath, id) == CanonicalPrefix + id
  {
  }

  /** The marker is found in any letter case wherever it is written. */
  lemma MarkerPresentAt(text: string, i: nat)
    requires i + |NoTrailerMarker| <= |text| && text[i..i + |NoTrailerMarker|] == NoTrailerMarker
    ensures ContainsIgnoreCase(text, NoTrailerMarker)
  {
    assert Lower(text)[i..i + |NoTrailerMarker|] == Lower(NoTrailerMarker);
    assert OccursAt(Lower(text), Lower(NoTrailerMarker), i);
  }

  /** The canonical URL never contains the marker (its prefix has no n, its id is too short). */
  lemma CanonicalHasNoMarker(id: string)
    requires IsVideoId(id)
    ensures !ContainsIgnoreCase(CanonicalPrefix + id, NoTrailerMarker)
  {
    var text := CanonicalPrefix + id;
    var marker := Lower(NoTrailerMarker);
    assert marker[0] == 'n';
    forall i: nat | i <= |Lower(text)| ensures !OccursAt(Lower(text), marker, i) {
      if i < |CanonicalPrefix| {
        assert Lower(text)[i] == LowerChar(CanonicalPrefix[i]) != 'n';
        if i + |marker| <= |text| {
          assert Lower(text)[i..i + |marker|][0] != marker[0];
        }
      }
    }
  }

  /** The short link, the watch link and the canonical URL of one id all give the canonical URL,
      whatever follows the 11-character id. */
  lemma ShortAndWatchLinksAgree(id: string, post: string)
    requires IsVideoId(id)
    requires !ContainsIgnoreCase(Link(1, ShortPath, id) + post, NoTrailerMarker)
    requires !ContainsIgnoreCase(Link(1, WatchPath, id) + post, NoTrailerMarker)
    ensures ExtractYouTubeUrl(Link(1, ShortPath, id) + post) == Some(CanonicalPrefix + id)
    ensures ExtractYouTubeUrl(Link(1, WatchPath, id) + post) == Some(CanonicalPrefix + id)
  {
    assert "" + Link(1, ShortPath, id) + post == Link(1, ShortPath, id) + post;
    assert "" + Link(1, WatchPath, id) + post == Link(1, WatchPath, id) + post;
    ExtractEmbeddedLink("", 1, ShortPath, id, post);
    ExtractEmbeddedLink("", 1, WatchPath, id, post);
  }

  /** Normalisation is idempotent: the canonical URL extracts to itself. */
  lemma CanonicalIsFixedPoint(id: string)
    requires IsVideoId(id)
    ensures ExtractYouTubeUrl(CanonicalPrefix + id) == Some(CanonicalPrefix + id)
  {
    WatchLinkIsCanonical(id);
    assert CanonicalPrefix + id == "" + Link(0, WatchPath, id) + "";
    CanonicalHasNoMarker(id);
    ExtractEmbeddedLink("", 0, WatchPath, id, "");
  }

  /** Extracting from an extracted URL changes nothing. */
  lemma ExtractIdempotent(text: string)
    ensures ExtractYouTubeUrl(text).Some? ==>
      ExtractYouTubeUrl(ExtractYouTubeUrl(text).value) == ExtractYouTubeUrl(text)
  {
    ExtractShape(text);
    if ExtractYouTubeUrl(text).Some? {
      var q: nat :| IsFirstLink(text, q) && ExtractYouTubeUrl(text) == Some(CanonicalPrefix + LinkAt(text, q).value);
      CanonicalIsFixedPoint(LinkAt(text, q).value);
    }
  }

  // ---------------------------------------------------------------------
  // The cases of the parser's unit tests

  const TestId := "yR7A-Y_mYCc"
  const TestUrl := CanonicalPrefix + TestId

  lemma TestUrlValue()
    ensures TestUrl == "https://www.youtube.com/watch?v=yR7A-Y_mYCc"
  {
  }

  lemma TestIdFacts()
    ensures IsVideoId(TestId)
    ensures 'n' !in TestId && 'N' !in TestId
  {
  }

  /** No accepted prefix or path holds the letter n, in either case. */
  lemma LinkPartsHaveNoN(k: nat)
    requires k < |OptionalPrefixes|
    ensures 'n' !in OptionalPrefixes[k] && 'N' !in OptionalPrefixes[k]
    ensures 'n' !in WatchPath && 'N' !in WatchPath && 'n' !in ShortPath && 'N' !in ShortPath
  {
  }

  /**
   * The test id written in any accepted form, after text without n or y and
   * before text without n, normalises to the test URL.
   */
  lemma EmbeddedTestLink(pre: string, k: nat, path: string, post: string)
    requires k < |OptionalPrefixes| && IsLinkPath(path)
    requires 'y' !in pre && 'Y' !in pre
    requires 'n' !in pre && 'N' !in pre && 'n' !in post && 'N' !in post
    ensures ExtractYouTubeUrl(pre + Link(k, path, TestId) + post) == Some(TestUrl)
  {
    TestIdFacts();
    LinkPartsHaveNoN(k);
    var text := pre + Link(k, path, TestId) + post;
    assert text == pre + OptionalPrefixes[k] + path + TestId + post;
    MarkerAbsentWithoutN(text);
    NoLetterY(pre);
    ExtractEmbeddedLink(pre, k, path, TestId, post);
  }

  lemma ExactUrlScenario()
    ensures ExtractYouTubeUrl(TestUrl) == Some(TestUrl)
  {
    TestIdFacts();
    CanonicalIsFixedPoint(TestId);
  }

  const ChattyPreamble := "Sure! " + "Here is " + "the " + "trailer: "
  const ChattyClosing := " hope " + "you " + "like it."

  lemma ChattyPreambleHasNoY()
    ensures 'y' !in ChattyPreamble && 'Y' !in ChattyPreamble
  {
  }

  lemma ChattyPreambleHasNoN()
    ensures 'n' !in ChattyPreamble && 'N' !in ChattyPreamble
  {
  }

  lemma ChattyClosingHasNoN()
    ensures 'n' !in ChattyClosing && 'N' !in ChattyClosing
  {
  }

  lemma ChattyUrlScenario()
    ensures ExtractYouTubeUrl(ChattyPreamble + TestUrl + ChattyClosing) == Some(TestUrl)
  {
    ChattyPreambleHasNoY();
    ChattyPreambleHasNoN();
    ChattyClosingHasNoN();
    EmbeddedTestLink(ChattyPreamble, 0, WatchPath, ChattyClosing);
  }

  const HelpPreamble := "The " + "trailer " + "for " + "Help! " + "(1965) " + "is "

  lemma HelpPreambleHasNoY()
    ensures 'y' !in HelpPreamble && 'Y' !in HelpPreamble
  {
  }

  lemma HelpPreambleHasNoN()
    ensures 'n' !in HelpPreamble && 'N' !in HelpPreamble
  {
  }

  lemma HelpScenario()
    ensures ExtractYouTubeUrl(HelpPreamble + TestUrl) == Some(TestUrl)
  {
    HelpPreambleHasNoY();
    HelpPreambleHasNoN();
    EmbeddedTestLink(HelpPreamble, 0, WatchPath, "");
    assert HelpPreamble + Link(0, WatchPath, TestId) + "" == HelpPreamble + TestUrl;
  }

  const ShortPreamble := "Check " + "this " + "out: "

  lemma ShortPreambleHasNoY()
    ensures 'y' !in ShortPreamble && 'Y' !in ShortPreamble
  {
  }

  lemma ShortPreambleHasNoN()
    ensures 'n' !in ShortPreamble && 'N' !in ShortPreamble
  {
  }

  lemma ShortUrlScenario()
    ensures ExtractYouTubeUrl(ShortPreamble + "https://" + ShortPath + TestId) == Some(TestUrl)
  {
    ShortPreambleHasNoY();
    ShortPreambleHasNoN();
    EmbeddedTestLink(ShortPreamble, 1, ShortPath, "");
    assert OptionalPrefixes[1] == "https://";
    assert ShortPreamble + Link(1, ShortPath, TestId) + "" == ShortPreamble + "https://" + ShortPath + TestId;
  }

  lemma QueryParameterScenario()
    ensures ExtractYouTubeUrl(TestUrl + "&t=10s") == Some(TestUrl)
  {
    EmbeddedTestLink("", 0, WatchPath, "&t=10s");
    assert "" + Link(0, WatchPath, TestId) + "&t=10s" == TestUrl + "&t=10s";
  }

  lemma MarkerScenarios()
    ensures ExtractYouTubeUrl(NoTrailerMarker) == None
    ensures ExtractYouTubeUrl("I searched everywhere but " + NoTrailerMarker + " for this movie.") == None
  {
    assert NoTrailerMarker == [] + NoTrailerMarker + [];
    MarkerPresentAt([] + NoTrailerMarker + [], 0);
    MarkerPresentAt("I searched everywhere but " + NoTrailerMarker + " for this movie.", 26);
  }

  /** The marker wins over a well-formed link that comes before it. */
  lemma MarkerBeatsLinkScenario()
    ensures ExtractYouTubeUrl(TestUrl + " or " + NoTrailerMarker) == None
  {
    MarkerPresentAt(TestUrl + " or " + NoTrailerMarker, 47);
  }
}
