/**
 * `parseSuggestionResponseWithTrailers` (GeminiTrailerService.kt): turns the
 * provider's "Movie: <title> | Trailer: <url>" lines into (title, hint) pairs.
 */
module SuggestionParser {
  import opened Wrappers
  import opened Text

  const TitleLabel := "Movie:"
  const TrailerLabel := "Trailer:"

  /** A suggested title and the raw trailer hint that came with it. */
  datatype Suggestion = Suggestion(title: string, trailer: string)

  /** The shape every parsed suggestion has: a non-empty title, both fields trimmed. */
  predicate IsClean(sg: Suggestion) {
    sg.title != [] && IsTrimmed(sg.title) && IsTrimmed(sg.trailer)
  }

  /** The `mapNotNull` body for one line: split on `|`, drop the labels, trim. */
  function ParseLine(line: string): (r: Option<Suggestion>)
    ensures r.Some? ==> '|' in line && IsClean(r.value)
  {
    var parts := Split(line, '|');
    if |parts| >= 2 then
      var title := Trim(RemoveIgnoreCase(parts[0], TitleLabel));
      var trailer := Trim(RemoveIgnoreCase(parts[1], TrailerLabel));
      if title != [] then Some(Suggestion(title, trailer)) else None
    else None
  }

  /** `filter { it.contains("|") }` followed by `mapNotNull`, over a list of lines. */
  function ParseLines(lines: seq<string>): (r: seq<Suggestion>)
    ensures |r| <= |lines|
    ensures forall i :: 0 <= i < |r| ==> IsClean(r[i])
  {
    if lines == [] then []
    else
      var rest := ParseLines(lines[1..]);
      if '|' !in lines[0] then rest
      else match ParseLine(lines[0])
        case Some(sg) => [sg] + rest
        case None => rest
  }

  /** `parseSuggestionResponseWithTrailers`. */
  function ParseSuggestions(text: string): (r: seq<Suggestion>)
    ensures |r| <= |Lines(text)|
    ensures forall i :: 0 <= i < |r| ==> IsClean(r[i])
  {
    ParseLines(Lines(text))
  }

  /** Lines are handled independently and their order is kept. */
  lemma {:induction false} ParseLinesAppend(a: seq<string>, b: seq<string>)
    ensures ParseLines(a + b) == ParseLines(a) + ParseLines(b)
  {
    if a == [] {
      assert a + b == b;
    } else {
      assert (a + b)[0] == a[0];
      assert (a + b)[1..] == a[1..] + b;
      ParseLinesAppend(a[1..], b);
    }
  }

  /** A line without the delimiter, or whose title is empty once the label is gone, contributes nothing. */
  lemma DroppedLine(line: string)
    requires '|' !in line || Trim(RemoveIgnoreCase(Split(line, '|')[0], TitleLabel)) == []
    ensures ParseLines([line]) == []
  {
    assert [line][1..] == [];
  }

  // ---------------------------------------------------------------------
  // The line format the suggestion prompt asks for

  /** "Movie: [Movie Title] | Trailer: [YouTube URL]". */
  function FormatLine(sg: Suggestion): string {
    TitleLabel + " " + sg.title + " | " + TrailerLabel + " " + sg.trailer
  }

  function FormatLines(sgs: seq<Suggestion>): (r: seq<string>)
    ensures |r| == |sgs|
    ensures forall i :: 0 <= i < |sgs| ==> r[i] == FormatLine(sgs[i])
  {
    if sgs == [] then [] else [FormatLine(sgs[0])] + FormatLines(sgs[1..])
  }

  /** What a suggestion must look like for the format to carry it unchanged. */
  predicate IsWellFormed(sg: Suggestion) {
    && sg.title != [] && IsTrimmed(sg.title) && IsTrimmed(sg.trailer)
    && '|' !in sg.title && '|' !in sg.trailer
    && HasNoLineBreak(sg.title) && HasNoLineBreak(sg.trailer)
    && !ContainsIgnoreCase(sg.title, TitleLabel)
    && !ContainsIgnoreCase(sg.trailer, TrailerLabel)
  }

  /** Neither label holds the delimiter or a line break. */
  lemma LabelFacts()
    ensures '|' !in TitleLabel && HasNoLineBreak(TitleLabel)
    ensures '|' !in TrailerLabel && HasNoLineBreak(TrailerLabel)
    ensures LowerChar(' ') != LowerChar(TitleLabel[|TitleLabel| - 1])
    ensures LowerChar(' ') != LowerChar(TrailerLabel[0]) && LowerChar(' ') != LowerChar(TrailerLabel[|TrailerLabel| - 1])
  {
  }

  lemma TitleSegment(t: string)
    requires t != [] && IsTrimmed(t) && !ContainsIgnoreCase(t, TitleLabel)
    ensures Trim(RemoveIgnoreCase(TitleLabel + " " + t + " ", TitleLabel)) == t
  {
    LabelFacts();
    assert TitleLabel + " " + t + " " == TitleLabel + ([' '] + (t + [' ']));
    RemoveLeading(TitleLabel, [' '] + (t + [' ']));
    RemoveKeepsFirst(' ', t + [' '], TitleLabel);
    RemoveKeepsLast(t, ' ', TitleLabel);
    RemoveAbsent(t, TitleLabel);
    assert [' '] + (t + [' ']) == " " + t + " ";
    TrimPadded(" ", t, " ");
  }

  lemma TrailerSegment(u: string)
    requires IsTrimmed(u) && !ContainsIgnoreCase(u, TrailerLabel)
    ensures Trim(RemoveIgnoreCase(" " + TrailerLabel + " " + u, TrailerLabel)) == u
  {
    LabelFacts();
    var su := [' '] + u;
    var tail := TrailerLabel + su;
    assert " " + TrailerLabel + " " + u == [' '] + tail;
    calc {
      RemoveIgnoreCase([' '] + tail, TrailerLabel);
    == { RemoveKeepsFirst(' ', tail, TrailerLabel); }
      [' '] + RemoveIgnoreCase(tail, TrailerLabel);
    == { RemoveLeading(TrailerLabel, su); }
      [' '] + RemoveIgnoreCase(su, TrailerLabel);
    == { RemoveKeepsFirst(' ', u, TrailerLabel); RemoveAbsent(u, TrailerLabel); }
      [' '] + ([' '] + u);
    }
    assert [' '] + ([' '] + u) == "  " + u + "";
    TrimPadded("  ", u, "");
  }

  /** The two halves of a formatted line, split at its only delimiter. */
  lemma FormatLineHalves(sg: Suggestion)
    requires '|' !in sg.title && '|' !in sg.trailer
    ensures FormatLine(sg) == (TitleLabel + " " + sg.title + " ") + ['|'] + (" " + TrailerLabel + " " + sg.trailer)
    ensures Split(FormatLine(sg), '|') == [TitleLabel + " " + sg.title + " ", " " + TrailerLabel + " " + sg.trailer]
  {
    LabelFacts();
    var a, b := TitleLabel + " " + sg.title + " ", " " + TrailerLabel + " " + sg.trailer;
    assert FormatLine(sg) == a + ['|'] + b;
    SplitAt(a, '|', b);
    SplitPlain(b, '|');
  }

  /** A formatted line breaks no line as long as its fields do not. */
  lemma FormatLineHasNoLineBreak(sg: Suggestion)
    requires HasNoLineBreak(sg.title) && HasNoLineBreak(sg.trailer)
    ensures HasNoLineBreak(FormatLine(sg))
  {
    LabelFacts();
    assert HasNoLineBreak(" ") && HasNoLineBreak(" | ");
    var line := FormatLine(sg);
    assert line == TitleLabel + " " + sg.title + " | " + TrailerLabel + " " + sg.trailer;
  }

  /** A line with exactly two parts whose title survives parses to those two fields. */
  lemma ParseTwoParts(line: string, a: string, b: string)
    requires Split(line, '|') == [a, b]
    requires Trim(RemoveIgnoreCase(a, TitleLabel)) != []
    ensures ParseLine(line) == Some(Suggestion(Trim(RemoveIgnoreCase(a, TitleLabel)), Trim(RemoveIgnoreCase(b, TrailerLabel))))
  {
  }

  /** Parsing a formatted line gives back the suggestion. */
  lemma ParseFormatLine(sg: Suggestion)
    requires IsWellFormed(sg)
    ensures '|' in FormatLine(sg) && HasNoLineBreak(FormatLine(sg))
    ensures ParseLine(FormatLine(sg)) == Some(sg)
  {
    LabelFacts();
    FormatLineHalves(sg);
    var a, b := TitleLabel + " " + sg.title + " ", " " + TrailerLabel + " " + sg.trailer;
    TitleSegment(sg.title);
    TrailerSegment(sg.trailer);
    ParseTwoParts(FormatLine(sg), a, b);
    FormatLineHasNoLineBreak(sg);
    assert '|' in FormatLine(sg) by {
      assert FormatLine(sg)[|a|] == '|';
    }
  }

  /** A line that parses is kept, ahead of the lines after it. */
  lemma ParseLinesCons(line: string, rest: seq<string>, sg: Suggestion)
    requires '|' in line && ParseLine(line) == Some(sg)
    ensures ParseLines([line] + rest) == [sg] + ParseLines(rest)
  {
    var lines := [line] + rest;
    assert lines != [] && lines[0] == line && lines[1..] == rest;
  }

  lemma {:induction false} ParseFormatLines(sgs: seq<Suggestion>)
    requires forall i :: 0 <= i < |sgs| ==> IsWellFormed(sgs[i])
    ensures ParseLines(FormatLines(sgs)) == sgs
  {
    if sgs != [] {
      ParseFormatLine(sgs[0]);
      assert FormatLines(sgs) == [FormatLine(sgs[0])] + FormatLines(sgs[1..]);
      ParseLinesCons(FormatLine(sgs[0]), FormatLines(sgs[1..]), sgs[0]);
      ParseFormatLines(sgs[1..]);
      assert sgs == [sgs[0]] + sgs[1..];
    }
  }

  lemma FormatLinesHaveNoLineBreak(sgs: seq<Suggestion>)
    requires forall i :: 0 <= i < |sgs| ==> IsWellFormed(sgs[i])
    ensures forall i :: 0 <= i < |sgs| ==> HasNoLineBreak(FormatLines(sgs)[i])
  {
    forall i | 0 <= i < |sgs| ensures HasNoLineBreak(FormatLines(sgs)[i]) {
      FormatLineHasNoLineBreak(sgs[i]);
    }
  }

  /** A formatted line starts with the first letter of the title label. */
  lemma FormatLineStart(sg: Suggestion)
    ensures |FormatLine(sg)| > 0 && FormatLine(sg)[0] == 'M'
  {
    var rest := " " + sg.title + " | " + TrailerLabel + " " + sg.trailer;
    assert FormatLine(sg) == TitleLabel + rest;
    assert TitleLabel[0] == 'M';
  }

  /** A response of formatted lines is never blank: it starts with the title label. */
  lemma FormattedReplyNotBlank(sgs: seq<Suggestion>)
    requires |sgs| >= 1
    ensures !IsBlank(JoinLines(FormatLines(sgs)))
  {
    var ls := FormatLines(sgs);
    FormatLineStart(sgs[0]);
    assert ls[0][0] == 'M';
    JoinLinesNotBlank(ls);
  }

  /** A response made of formatted lines parses back to exactly those suggestions, in order. */
  lemma ParseFormattedResponse(sgs: seq<Suggestion>)
    requires |sgs| >= 1
    requires forall i :: 0 <= i < |sgs| ==> IsWellFormed(sgs[i])
    ensures ParseSuggestions(JoinLines(FormatLines(sgs))) == sgs
  {
    FormatLinesHaveNoLineBreak(sgs);
    ParseFormatLines(sgs);
    ParseJoinedLines(FormatLines(sgs));
  }

  /** Joining lines free of line breaks and parsing the text parses each line in turn. */
  lemma ParseJoinedLines(ls: seq<string>)
    requires |ls| >= 1 && forall i :: 0 <= i < |ls| ==> HasNoLineBreak(ls[i])
    ensures ParseSuggestions(JoinLines(ls)) == ParseLines(ls)
  {
    LinesJoinLines(ls);
  }
}
