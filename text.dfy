/**
 * ASCII models of the Kotlin `String` operations the services rely on:
 * `isBlank`, `lowercase`, `trim`, `contains`, `replace(..., ignoreCase = true)`,
 * `lines()` and `split("|")`.
 */
module Text {
  import opened Wrappers

  /** Kotlin's `Char.isWhitespace` on ASCII: TAB..CR, FS..US and SPACE. */
  predicate IsWhitespace(c: char) {
    9 <= c as int <= 13 || 28 <= c as int <= 32
  }

  /** `CharSequence.isBlank()`: empty or whitespace only. */
  predicate IsBlank(s: string) {
    forall i :: 0 <= i < |s| ==> IsWhitespace(s[i])
  }

  /** `CharSequence?.isNullOrBlank()`. */
  predicate IsNullOrBlank(s: Option<string>) {
    s.None? || IsBlank(s.value)
  }

  /** Neither end of `s` is whitespace (the shape `trim()` produces). */
  predicate IsTrimmed(s: string) {
    s == [] || (!IsWhitespace(s[0]) && !IsWhitespace(s[|s| - 1]))
  }

  lemma NotBlankAt(s: string, i: nat)
    requires i < |s| && !IsWhitespace(s[i])
    ensures !IsBlank(s)
  {
  }

  // ---------------------------------------------------------------------
  // Case folding

  /** `Char.lowercaseChar()` on ASCII letters; every other character is kept. */
  function LowerChar(c: char): (r: char)
    ensures 'A' <= c <= 'Z' ==> r as int == c as int + 32
    ensures !('A' <= c <= 'Z') ==> r == c
  {
    if 'A' <= c <= 'Z' then (c as int + 32) as char else c
  }

  /** `String.lowercase()`, character by character. */
  function Lower(s: string): (r: string)
    ensures |r| == |s|
    ensures forall i :: 0 <= i < |s| ==> r[i] == LowerChar(s[i])
  {
    seq(|s|, i requires 0 <= i < |s| => LowerChar(s[i]))
  }

  /** Lower-casing leaves no upper-case letter. */
  lemma LowerHasNoUpper(s: string)
    ensures forall c :: c in Lower(s) ==> !('A' <= c <= 'Z')
  {
  }

  /** Lower-casing changes no whitespace and makes none. */
  lemma LowerKeepsBlank(s: string)
    ensures IsBlank(Lower(s)) <==> IsBlank(s)
  {
    assert forall i :: 0 <= i < |s| ==> (IsWhitespace(Lower(s)[i]) <==> IsWhitespace(s[i]));
  }

  lemma LowerConcat(a: string, b: string)
    ensures Lower(a + b) == Lower(a) + Lower(b)
  {
    assert forall i :: 0 <= i < |a + b| ==> Lower(a + b)[i] == (Lower(a) + Lower(b))[i];
  }

  // ---------------------------------------------------------------------
  // Substring search

  /** `pat` occurs in `s` starting at index `i`. */
  predicate OccursAt(s: string, pat: string, i: nat) {
    i + |pat| <= |s| && s[i..i + |pat|] == pat
  }

  /** `CharSequence.contains(pat)`. */
  predicate Contains(s: string, pat: string) {
    exists i: nat | i <= |s| :: OccursAt(s, pat, i)
  }

  /** `CharSequence.contains(pat, ignoreCase = true)`. */
  predicate ContainsIgnoreCase(s: string, pat: string) {
    Contains(Lower(s), Lower(pat))
  }

  /** If some character of `pat` never occurs in `s`, then `s` does not contain `pat`. */
  lemma MissingCharNotContained(s: string, pat: string, k: nat)
    requires k < |pat| && pat[k] !in s
    ensures !Contains(s, pat)
  {
  }

  /** A pattern longer than `s` is never contained in it. */
  lemma LongerNotContained(s: string, pat: string)
    requires |pat| > |s|
    ensures !Contains(s, pat)
  {
  }

  // ---------------------------------------------------------------------
  // Trimming

  function TrimStart(s: string): (r: string)
    ensures |r| <= |s| && r == s[|s| - |r|..]
    ensures IsBlank(s[..|s| - |r|])
    ensures r == [] || !IsWhitespace(r[0])
  {
    if s != [] && IsWhitespace(s[0]) then TrimStart(s[1..]) else s
  }

  function TrimEnd(s: string): (r: string)
    ensures |r| <= |s| && r == s[..|r|]
    ensures IsBlank(s[|r|..])
    ensures r == [] || !IsWhitespace(r[|r| - 1])
  {
    if s != [] && IsWhitespace(s[|s| - 1]) then TrimEnd(s[..|s| - 1]) else s
  }

  /** Every character of a slice occurs in the whole. */
  lemma SliceChars(s: string, i: nat, j: nat)
    requires i <= j <= |s|
    ensures forall c :: c in s[i..j] ==> c in s
  {
    forall c | c in s[i..j] ensures c in s {
      var k :| 0 <= k < j - i && s[i..j][k] == c;
      assert s[i + k] == c;
    }
  }

  /** `String.trim()`: drops leading and trailing whitespace. */
  function Trim(s: string): (r: string)
    ensures IsTrimmed(r)
    ensures r == [] <==> IsBlank(s)
  {
    var t := TrimStart(s);
    var r := TrimEnd(t);
    assert r == [] ==> IsBlank(s) by {
      if r == [] {
        assert IsBlank(t);
        assert s == s[..|s| - |t|] + t;
      }
    }
    assert IsTrimmed(r) by {
      if r != [] {
        assert r[0] == t[0];
      }
    }
    r
  }

  /** Trimming only removes characters: whatever is left occurs in the input. */
  lemma TrimKeepsChars(s: string)
    ensures forall c :: c in Trim(s) ==> c in s
  {
    var t := TrimStart(s);
    SliceChars(t, 0, |Trim(s)|);
    SliceChars(s, |s| - |t|, |s|);
  }

  lemma TrimStartBlankPrefix(pre: string, t: string)
    requires IsBlank(pre) && (t == [] || !IsWhitespace(t[0]))
    ensures TrimStart(pre + t) == t
  {
    if pre != [] {
      assert (pre + t)[1..] == pre[1..] + t;
      TrimStartBlankPrefix(pre[1..], t);
    }
  }

  lemma TrimEndBlankSuffix(t: string, post: string)
    requires IsBlank(post) && (t == [] || !IsWhitespace(t[|t| - 1]))
    ensures TrimEnd(t + post) == t
  {
    if post != [] {
      assert (t + post)[..|t + post| - 1] == t + post[..|post| - 1];
      TrimEndBlankSuffix(t, post[..|post| - 1]);
    }
  }

  /** Trimming removes exactly the whitespace padding around a trimmed string. */
  lemma TrimPadded(pre: string, t: string, post: string)
    requires IsBlank(pre) && IsBlank(post) && IsTrimmed(t)
    ensures Trim(pre + t + post) == t
  {
    if t == [] {
      assert IsBlank(pre + t + post);
    } else {
      assert pre + t + post == pre + (t + post);
      TrimStartBlankPrefix(pre, t + post);
      TrimEndBlankSuffix(t, post);
    }
  }

  /** `trim()` is idempotent. */
  lemma TrimIdempotent(s: string)
    ensures Trim(Trim(s)) == Trim(s)
  {
    var t := Trim(s);
    assert [] + t + [] == t;
    TrimPadded([], t, []);
  }

  // ---------------------------------------------------------------------
  // replace(pat, "", ignoreCase = true)

  /** `s.replace(pat, "", ignoreCase = true)`: removes every occurrence of `pat`,
      scanning left to right without overlaps. */
  function RemoveIgnoreCase(s: string, pat: string): (r: string)
    requires |pat| > 0
    ensures |r| <= |s|
    decreases |s|
  {
    if |s| < |pat| then s
    else if Lower(s[..|pat|]) == Lower(pat) then RemoveIgnoreCase(s[|pat|..], pat)
    else [s[0]] + RemoveIgnoreCase(s[1..], pat)
  }

  /** Without an occurrence nothing is removed. */
  lemma {:induction false} RemoveAbsent(s: string, pat: string)
    requires |pat| > 0 && !ContainsIgnoreCase(s, pat)
    ensures RemoveIgnoreCase(s, pat) == s
    decreases |s|
  {
    if |s| >= |pat| {
      assert Lower(s)[0..|pat|] == Lower(s[..|pat|]);
      assert !OccursAt(Lower(s), Lower(pat), 0);
      forall i: nat | i <= |s[1..]| ensures !OccursAt(Lower(s[1..]), Lower(pat), i) {
        assert !OccursAt(Lower(s), Lower(pat), i + 1);
        if i + |pat| <= |s[1..]| {
          assert Lower(s)[i + 1..i + 1 + |pat|] == Lower(s[1..])[i..i + |pat|];
        }
      }
      RemoveAbsent(s[1..], pat);
    }
  }

  /** A leading occurrence is removed. */
  lemma RemoveLeading(pat: string, s: string)
    requires |pat| > 0
    ensures RemoveIgnoreCase(pat + s, pat) == RemoveIgnoreCase(s, pat)
  {
    assert (pat + s)[..|pat|] == pat;
    assert (pat + s)[|pat|..] == s;
  }

  /** A leading character that cannot start an occurrence is kept. */
  lemma RemoveKeepsFirst(c: char, s: string, pat: string)
    requires |pat| > 0 && LowerChar(c) != LowerChar(pat[0])
    ensures RemoveIgnoreCase([c] + s, pat) == [c] + RemoveIgnoreCase(s, pat)
  {
    if |[c] + s| >= |pat| {
      assert Lower(([c] + s)[..|pat|])[0] != Lower(pat)[0];
      assert ([c] + s)[1..] == s;
    }
  }

  /** A trailing character that cannot end an occurrence is kept. */
  lemma {:induction false} RemoveKeepsLast(s: string, c: char, pat: string)
    requires |pat| > 0 && LowerChar(c) != LowerChar(pat[|pat| - 1])
    ensures RemoveIgnoreCase(s + [c], pat) == RemoveIgnoreCase(s, pat) + [c]
    decreases |s|
  {
    var sc := s + [c];
    if |sc| < |pat| {
    } else if Lower(sc[..|pat|]) == Lower(pat) {
      if |s| < |pat| {
        assert false;
      }
      assert sc[..|pat|] == s[..|pat|];
      assert sc[|pat|..] == s[|pat|..] + [c];
      RemoveKeepsLast(s[|pat|..], c, pat);
    } else if s != [] {
      assert sc[1..] == s[1..] + [c];
      RemoveKeepsLast(s[1..], c, pat);
      if |s| >= |pat| {
        assert sc[..|pat|] == s[..|pat|];
      } else {
        assert RemoveIgnoreCase(s, pat) == s;
        assert |s[1..] + [c]| < |pat|;
      }
    }
  }

  // ---------------------------------------------------------------------
  // lines() and split

  /** `CharSequence.lines()`: splits at "\r\n", "\n" and "\r". */
  function Lines(s: string): (r: seq<string>)
    ensures |r| >= 1
    ensures forall i :: 0 <= i < |r| ==> HasNoLineBreak(r[i])
  {
    LinesFrom(s, "")
  }

  /** Helper for `Lines`: `current` is the part of the current line already read. */
  function LinesFrom(s: string, current: string): (r: seq<string>)
    requires HasNoLineBreak(current)
    ensures |r| >= 1
    ensures forall i :: 0 <= i < |r| ==> HasNoLineBreak(r[i])
    decreases |s|
  {
    if s == [] then [current]
    else if s[0] == '\n' then [current] + LinesFrom(s[1..], "")
    else if s[0] == '\r' then
      if |s| > 1 && s[1] == '\n' then [current] + LinesFrom(s[2..], "")
      else [current] + LinesFrom(s[1..], "")
    else LinesFrom(s[1..], current + [s[0]])
  }

  /** Characters that end a line. */
  predicate HasNoLineBreak(s: string) {
    '\n' !in s && '\r' !in s
  }

  lemma {:induction false} LinesFromPlain(t: string, rest: string, current: string)
    requires HasNoLineBreak(t) && HasNoLineBreak(current)
    ensures LinesFrom(t + rest, current) == LinesFrom(rest, current + t)
    decreases |t|
  {
    if t != [] {
      assert (t + rest)[0] == t[0];
      assert (t + rest)[1..] == t[1..] + rest;
      assert current + [t[0]] + t[1..] == current + t;
      LinesFromPlain(t[1..], rest, current + [t[0]]);
    } else {
      assert t + rest == rest;
      assert current + t == current;
    }
  }

  /** Joins lines with "\n" (the format a text provider answers in). */
  function JoinLines(ls: seq<string>): (r: string)
    requires |ls| >= 1
    ensures ls[0] <= r
  {
    if |ls| == 1 then ls[0] else ls[0] + "\n" + JoinLines(ls[1..])
  }

  /** Joined lines are not blank when the first one starts with a visible character. */
  lemma JoinLinesNotBlank(ls: seq<string>)
    requires |ls| >= 1 && |ls[0]| > 0 && !IsWhitespace(ls[0][0])
    ensures !IsBlank(JoinLines(ls))
  {
    var r := JoinLines(ls);
    assert r[0] == ls[0][0];
    NotBlankAt(r, 0);
  }

  /** `lines()` undoes `JoinLines` when no line contains a line break. */
  lemma {:induction false} LinesJoinLines(ls: seq<string>)
    requires |ls| >= 1
    requires forall i :: 0 <= i < |ls| ==> HasNoLineBreak(ls[i])
    ensures Lines(JoinLines(ls)) == ls
  {
    if |ls| == 1 {
      LinesFromPlain(ls[0], "", "");
      assert ls[0] + "" == ls[0];
    } else {
      var rest := JoinLines(ls[1..]);
      assert ls[0] + "\n" + rest == ls[0] + ("\n" + rest);
      LinesFromPlain(ls[0], "\n" + rest, "");
      assert "" + ls[0] == ls[0];
      assert ("\n" + rest)[1..] == rest;
      LinesJoinLines(ls[1..]);
    }
  }

  /** `split(sep)` with a one-character separator: every piece, in order. */
  function Split(s: string, sep: char): (r: seq<string>)
    ensures |r| >= 1
    ensures |r| >= 2 <==> sep in s
    ensures forall i :: 0 <= i < |r| ==> sep !in r[i]
    decreases |s|
  {
    if s == [] then [""]
    else if s[0] == sep then [""] + Split(s[1..], sep)
    else
      var rest := Split(s[1..], sep);
      [[s[0]] + rest[0]] + rest[1..]
  }

  lemma {:induction false} SplitPlain(a: string, sep: char)
    requires sep !in a
    ensures Split(a, sep) == [a]
  {
    if a != [] {
      SplitPlain(a[1..], sep);
      assert [a[0]] + a[1..] == a;
    }
  }

  lemma {:induction false} SplitAt(a: string, sep: char, b: string)
    requires sep !in a
    ensures Split(a + [sep] + b, sep) == [a] + Split(b, sep)
  {
    var s := a + [sep] + b;
    if a == [] {
      assert s[1..] == b;
    } else {
      assert s[1..] == a[1..] + [sep] + b;
      SplitAt(a[1..], sep, b);
      assert [a[0]] + a[1..] == a;
    }
  }
}
