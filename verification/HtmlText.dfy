/** The Gmail plugin's HTML cleaning: scripts, styles, tags and white space, in that order. */
module HtmlText {

  // ---------------------------------------------------------------- patterns

  /** What \s matches, and what strip() removes. */
  predicate IsSpace(c: char) {
    c in {' ', '\t', '\n', '\r', '\U{0b}', '\U{0c}', '\U{1c}', '\U{1d}', '\U{1e}', '\U{1f}', '\U{85}', '\U{a0}',
          '\U{1680}', '\U{2028}', '\U{2029}', '\U{202f}', '\U{205f}', '\U{3000}'}
    || '\U{2000}' <= c <= '\U{200a}'
  }

  /** "<[^>]+>" matches s[i..j+1]. */
  ghost predicate TagAt(s: string, i: nat, j: nat) {
    i + 2 <= j < |s| && s[i] == '<' && s[j] == '>' && forall k :: i < k < j ==> s[k] != '>'
  }

  ghost predicate HasTag(s: string) {
    exists i, j :: TagAt(s, i, j)
  }

  function FirstClose(s: string): (j: nat)
    requires '>' in s
    ensures j < |s| && s[j] == '>' && forall k :: 0 <= k < j ==> s[k] != '>'
  {
    if s[0] == '>' then 0 else 1 + FirstClose(s[1..])
  }

  /** A tag starts at the front of s. */
  predicate TagHere(s: string) {
    |s| >= 2 && s[0] == '<' && s[1] != '>' && '>' in s
  }

  lemma TagHereIsTag(s: string)
    ensures TagHere(s) <==> exists j :: TagAt(s, 0, j)
  {
    if TagHere(s) {
      assert TagAt(s, 0, FirstClose(s));
    }
    if j: nat :| TagAt(s, 0, j) {
      assert s[j] in s;
    }
  }

  /** re.sub("<[^>]+>", " ", s): matches from the left, without overlap. */
  function WithoutTags(s: string): string
    decreases |s|
  {
    if s == "" then ""
    else if TagHere(s) then " " + WithoutTags(s[FirstClose(s) + 1..])
    else [s[0]] + WithoutTags(s[1..])
  }

  /** Case folding under IGNORECASE, on the characters equivalent to an ASCII letter: besides A-Z
    * these are the dotted capital I, the dotless i, the long s and the Kelvin sign. */
  function LowerChar(c: char): char {
    if 'A' <= c <= 'Z' then c + 32 as char
    else if c == '\U{130}' || c == '\U{131}' then 'i'
    else if c == '\U{17f}' then 's'
    else if c == '\U{212a}' then 'k'
    else c
  }

  /** s starts with the (lower-case) pattern, ignoring case. */
  predicate StartsWith(s: string, pattern: string) {
    |s| >= |pattern| && forall i :: 0 <= i < |pattern| ==> LowerChar(s[i]) == pattern[i]
  }

  /** Whether the pattern occurs in s from position `from` on. */
  predicate Occurs(s: string, pattern: string, from: nat)
    decreases |s| - from
  {
    from < |s| && (StartsWith(s[from..], pattern) || Occurs(s, pattern, from + 1))
  }

  function FirstOccurrence(s: string, pattern: string, from: nat): (at: nat)
    requires Occurs(s, pattern, from) && pattern != ""
    ensures from <= at && at + |pattern| <= |s| && StartsWith(s[at..], pattern)
    ensures forall k :: from <= k < at ==> !StartsWith(s[k..], pattern)
    decreases |s| - from
  {
    if StartsWith(s[from..], pattern) then from else FirstOccurrence(s, pattern, from + 1)
  }

  /** re.sub("<name[\s\S]*?</name>", " ", s, IGNORECASE): from an opening to the nearest closing. */
  function WithoutBlocks(s: string, name: string): string
    requires name != ""
    decreases |s|
  {
    var open, close := "<" + name, "</" + name + ">";
    if s == "" then ""
    else if StartsWith(s, open) && Occurs(s, close, |open|) then
      " " + WithoutBlocks(s[FirstOccurrence(s, close, |open|) + |close|..], name)
    else [s[0]] + WithoutBlocks(s[1..], name)
  }

  function DropSpaces(s: string): (r: string)
    ensures |r| <= |s| && (r != "" ==> !IsSpace(r[0]))
  {
    if s != "" && IsSpace(s[0]) then DropSpaces(s[1..]) else s
  }

  /** re.sub("\s+", " ", s). */
  function Collapsed(s: string): string
    decreases |s|
  {
    if s == "" then ""
    else if IsSpace(s[0]) then " " + Collapsed(DropSpaces(s[1..]))
    else [s[0]] + Collapsed(s[1..])
  }

  function DropTrailing(s: string): string {
    if s != "" && IsSpace(s[|s| - 1]) then DropTrailing(s[..|s| - 1]) else s
  }

  function Stripped(s: string): string {
    DropTrailing(DropSpaces(s))
  }

  function Clean(s: string): string {
    Stripped(Collapsed(WithoutTags(WithoutBlocks(WithoutBlocks(s, "script"), "style"))))
  }

  // ---------------------------------------------------------------- one pass removes every tag

  lemma HasTagCons(c: char, s: string)
    ensures HasTag([c] + s) <==> HasTag(s) || TagHere([c] + s)
  {
    var t := [c] + s;
    TagHereIsTag(t);
    forall k | 0 <= k < |s| ensures s[k] == t[k + 1] {
    }
    if i: nat, j: nat :| TagAt(t, i, j) {
      if i > 0 {
        forall k | i - 1 < k < j - 1 ensures s[k] != '>' {
          assert t[k + 1] != '>';
        }
        assert TagAt(s, i - 1, j - 1);
      }
    }
    if i: nat, j: nat :| TagAt(s, i, j) {
      forall k | i + 1 < k < j + 1 ensures t[k] != '>' {
        assert s[k - 1] != '>';
      }
      assert TagAt(t, i + 1, j + 1);
    }
  }

  lemma {:induction false} WithoutTagsKeepsFront(s: string)
    ensures '>' in WithoutTags(s) ==> '>' in s
    ensures s != "" && s[0] == '>' ==> WithoutTags(s) != "" && WithoutTags(s)[0] == '>'
    decreases |s|
  {
    if s != "" {
      if TagHere(s) {
        WithoutTagsKeepsFront(s[FirstClose(s) + 1..]);
      } else {
        WithoutTagsKeepsFront(s[1..]);
      }
    }
  }

  /** The output of the tag pass has no substring that matches the tag pattern. */
  lemma {:induction false} NoTagsLeft(s: string)
    ensures !HasTag(WithoutTags(s))
    decreases |s|
  {
    if s == "" {
    } else if TagHere(s) {
      var rest := s[FirstClose(s) + 1..];
      NoTagsLeft(rest);
      HasTagCons(' ', WithoutTags(rest));
    } else {
      NoTagsLeft(s[1..]);
      WithoutTagsKeepsFront(s[1..]);
      HasTagCons(s[0], WithoutTags(s[1..]));
    }
  }

  lemma {:induction false} NoTagNoChange(s: string)
    requires !HasTag(s)
    ensures WithoutTags(s) == s
    decreases |s|
  {
    if s != "" {
      assert s == [s[0]] + s[1..];
      HasTagCons(s[0], s[1..]);
      NoTagNoChange(s[1..]);
    }
  }

  /** Without tags there is no script or style block either: its closing part would be a tag. */
  lemma {:induction false} NoTagNoBlocks(s: string, name: string)
    requires !HasTag(s) && name != "" && SmallLetters(name)
    ensures WithoutBlocks(s, name) == s
    decreases |s|
  {
    var open, close := "<" + name, "</" + name + ">";
    if s != "" {
      if StartsWith(s, open) && Occurs(s, close, |open|) {
        var at := FirstOccurrence(s, close, |open|);
        ClosingIsTag(s, at, name);
      }
      assert s == [s[0]] + s[1..];
      HasTagCons(s[0], s[1..]);
      NoTagNoBlocks(s[1..], name);
    }
  }

  lemma ClosingIsTag(s: string, at: nat, name: string)
    requires at <= |s| && StartsWith(s[at..], "</" + name + ">")
    requires SmallLetters(name)
    ensures HasTag(s)
  {
    var close := "</" + name + ">";
    var end := at + |close| - 1;
    forall k | 0 <= k < |close| ensures LowerChar(s[at + k]) == close[k] {
      assert s[at..][k] == s[at + k];
    }
    assert LowerChar(s[at]) == close[0] && LowerChar(s[end]) == close[|close| - 1];
    forall k | at < k < end ensures s[k] != '>' {
      assert LowerChar(s[k]) == close[k - at];
    }
    assert TagAt(s, at, end);
  }

  // ---------------------------------------------------------------- what a pass replaces

  lemma FrontTagIsReplaced(s: string, j: nat)
    requires TagAt(s, 0, j)
    ensures WithoutTags(s) == " " + WithoutTags(s[j + 1..])
  {
    TagHereIsTag(s);
    assert FirstClose(s) == j;
  }

  lemma NoTagInFront(s: string)
    requires s != "" && forall l :: !TagAt(s, 0, l)
    ensures WithoutTags(s) == [s[0]] + WithoutTags(s[1..])
  {
    TagHereIsTag(s);
  }

  /** One character more in front of a replacement. */
  lemma OneMoreInFront(s: string, i: nat, rest: string)
    requires 0 < i <= |s|
    ensures [s[0]] + (s[1..][..i - 1] + " " + rest) == s[..i] + " " + rest
  {
  }

  /** The leftmost tag becomes a blank, the text before it stays, and the pass goes on after it; text
    * without a tag stays as it is (NoTagNoChange).  So a pass does what it should on every text. */
  lemma {:induction false} FirstTagIsReplaced(s: string, i: nat, j: nat)
    requires TagAt(s, i, j) && forall k, l :: 0 <= k < i ==> !TagAt(s, k, l)
    ensures WithoutTags(s) == s[..i] + " " + WithoutTags(s[j + 1..])
    decreases |s|
  {
    hide WithoutTags;
    if i == 0 {
      FrontTagIsReplaced(s, j);
      assert s[..0] + " " == " ";
    } else {
      var t := s[1..];
      TagInRest(s, i, j);
      forall k: nat, l: nat | k < i - 1 ensures !TagAt(t, k, l) {
        if TagAt(t, k, l) {
          assert s[1..|s|] == t;
          TagInWhole(s, 1, |s|, k, l);
        }
      }
      hide TagAt;
      FirstTagIsReplaced(t, i - 1, j - 1);
      NoTagInFront(s);
      assert s[j + 1..] == t[j..];
      OneMoreInFront(s, i, WithoutTags(t[j..]));
    }
  }

  lemma TagInRest(s: string, i: nat, j: nat)
    requires TagAt(s, i, j) && i > 0
    ensures TagAt(s[1..], i - 1, j - 1)
  {
    assert forall k :: i - 1 < k < j - 1 ==> s[1..][k] == s[k + 1];
  }

  /** The pattern, which is in small letters, matches s at position i, ignoring case. */
  ghost predicate MatchesAt(s: string, pattern: string, i: nat) {
    i + |pattern| <= |s| && forall k :: 0 <= k < |pattern| ==> LowerChar(s[i + k]) == pattern[k]
  }

  /** An opening part at i, and the nearest closing part behind it at j. */
  ghost predicate BlockAt(s: string, name: string, i: nat, j: nat) {
    && MatchesAt(s, "<" + name, i) && MatchesAt(s, "</" + name + ">", j) && i + 1 + |name| <= j
    && forall k :: i + 1 + |name| <= k < j ==> !MatchesAt(s, "</" + name + ">", k)
  }

  ghost predicate HasBlock(s: string, name: string) {
    exists i, j :: BlockAt(s, name, i, j)
  }

  lemma StartsMeansMatches(s: string, pattern: string, i: nat)
    requires i <= |s|
    ensures StartsWith(s[i..], pattern) <==> MatchesAt(s, pattern, i)
  {
    assert forall k :: 0 <= k < |s| - i ==> s[i..][k] == s[i + k];
    if StartsWith(s[i..], pattern) {
      forall k | 0 <= k < |pattern| ensures LowerChar(s[i + k]) == pattern[k] {
        assert LowerChar(s[i..][k]) == pattern[k];
      }
    }
  }

  lemma {:induction false} OccursMeansMatches(s: string, pattern: string, from: nat)
    requires pattern != ""
    ensures Occurs(s, pattern, from) <==> exists j :: from <= j && MatchesAt(s, pattern, j)
    decreases |s| - from
  {
    if from < |s| {
      StartsMeansMatches(s, pattern, from);
      OccursMeansMatches(s, pattern, from + 1);
    }
  }

  /** A match in what is left after the first character, and the same match in the whole text. */
  lemma MatchMoves(s: string, pattern: string, i: nat)
    requires s != ""
    ensures MatchesAt(s[1..], pattern, i) <==> MatchesAt(s, pattern, i + 1)
  {
    assert forall k :: 0 <= k < |s| - 1 ==> s[1..][k] == s[k + 1];
    if MatchesAt(s, pattern, i + 1) {
      forall k | 0 <= k < |pattern| ensures LowerChar(s[1..][i + k]) == pattern[k] {
        assert LowerChar(s[i + 1 + k]) == pattern[k];
      }
    }
    if MatchesAt(s[1..], pattern, i) {
      forall k | 0 <= k < |pattern| ensures LowerChar(s[i + 1 + k]) == pattern[k] {
        assert LowerChar(s[1..][i + k]) == pattern[k];
      }
    }
  }

  lemma BlockMoves(s: string, name: string, i: nat, j: nat)
    requires s != ""
    ensures BlockAt(s[1..], name, i, j) <==> BlockAt(s, name, i + 1, j + 1)
  {
    hide MatchesAt;
    var open, close := "<" + name, "</" + name + ">";
    MatchMoves(s, open, i);
    forall k: nat ensures MatchesAt(s[1..], close, k) <==> MatchesAt(s, close, k + 1) { MatchMoves(s, close, k); }
    if BlockAt(s[1..], name, i, j) {
      forall k | i + 2 + |name| <= k < j + 1 ensures !MatchesAt(s, close, k) {
        assert !MatchesAt(s[1..], close, k - 1);
      }
    }
  }

  /** A block at the front of s. */
  lemma BlockHere(s: string, name: string)
    requires name != ""
    ensures var open, close := "<" + name, "</" + name + ">";
      && (StartsWith(s, open) && Occurs(s, close, |open|) <==> exists j :: BlockAt(s, name, 0, j))
      && (StartsWith(s, open) && Occurs(s, close, |open|) ==> BlockAt(s, name, 0, FirstOccurrence(s, close, |open|)))
  {
    var open, close := "<" + name, "</" + name + ">";
    assert s[0..] == s;
    StartsMeansMatches(s, open, 0);
    OccursMeansMatches(s, close, |open|);
    if StartsWith(s, open) && Occurs(s, close, |open|) {
      var at := FirstOccurrence(s, close, |open|);
      forall k | 0 <= k <= at ensures StartsWith(s[k..], close) <==> MatchesAt(s, close, k) { StartsMeansMatches(s, close, k); }
      hide MatchesAt, StartsWith;
      assert BlockAt(s, name, 0, at);
    }
    hide MatchesAt;
    if j: nat :| BlockAt(s, name, 0, j) {
      assert |open| <= j && MatchesAt(s, close, j);
    }
  }

  lemma OneNearestClosing(s: string, name: string, j: nat, l: nat)
    requires BlockAt(s, name, 0, j) && BlockAt(s, name, 0, l)
    ensures j == l && j + |name| + 3 <= |s|
  {
    assert MatchesAt(s, "</" + name + ">", j) && MatchesAt(s, "</" + name + ">", l);
    assert |"</" + name + ">"| == |name| + 3;
    hide MatchesAt;
  }

  lemma FrontBlockIsReplaced(s: string, name: string, j: nat)
    requires name != "" && BlockAt(s, name, 0, j)
    ensures j + |name| + 3 <= |s| && WithoutBlocks(s, name) == " " + WithoutBlocks(s[j + |name| + 3..], name)
  {
    hide BlockAt, StartsWith, Occurs;
    BlockHere(s, name);
    var at := FirstOccurrence(s, "</" + name + ">", |"<" + name|);
    OneNearestClosing(s, name, j, at);
    assert at + |"</" + name + ">"| == j + |name| + 3;
    assert s != "";
  }

  lemma NoBlockInFront(s: string, name: string)
    requires name != "" && s != "" && forall l :: !BlockAt(s, name, 0, l)
    ensures WithoutBlocks(s, name) == [s[0]] + WithoutBlocks(s[1..], name)
  {
    BlockHere(s, name);
  }

  /** The leftmost block becomes a blank with all that is in it, the text before it stays, and the pass
    * goes on after it. */
  lemma {:induction false} FirstBlockIsReplaced(s: string, name: string, i: nat, j: nat)
    requires name != "" && BlockAt(s, name, i, j) && forall k, l :: 0 <= k < i ==> !BlockAt(s, name, k, l)
    ensures j + |name| + 3 <= |s| && WithoutBlocks(s, name) == s[..i] + " " + WithoutBlocks(s[j + |name| + 3..], name)
    decreases |s|
  {
    hide WithoutBlocks;
    if i == 0 {
      FrontBlockIsReplaced(s, name, j);
      assert s[..0] + " " == " ";
    } else {
      var t := s[1..];
      assert s != "" && i <= |s|;
      BlockMoves(s, name, i - 1, j - 1);
      assert j > 0;
      hide BlockAt;
      forall k: nat, l: nat | k < i - 1 ensures !BlockAt(t, name, k, l) {
        BlockMoves(s, name, k, l);
      }
      FirstBlockIsReplaced(t, name, i - 1, j - 1);
      NoBlockInFront(s, name);
      assert s[j + |name| + 3..] == t[j + |name| + 2..];
      OneMoreInFront(s, i, WithoutBlocks(t[j + |name| + 2..], name));
    }
  }

  /** Text without a block stays as it is. */
  lemma {:induction false} NoBlockNoChange(s: string, name: string)
    requires name != "" && !HasBlock(s, name)
    ensures WithoutBlocks(s, name) == s
    decreases |s|
  {
    if s != "" {
      BlockHere(s, name);
      forall i: nat, j: nat ensures !BlockAt(s[1..], name, i, j) { BlockMoves(s, name, i, j); }
      NoBlockNoChange(s[1..], name);
    }
  }

  ghost predicate SmallLetters(p: string) {
    forall i :: 0 <= i < |p| ==> 'a' <= p[i] <= 'z'
  }

  lemma ShorterMatch(s: string, p: string)
    requires p != "" && MatchesAt(s, p, 0)
    ensures MatchesAt(s[1..], p[1..], 0)
  {
    forall k | 0 <= k < |p| - 1 ensures LowerChar(s[1..][0 + k]) == p[1..][k] {
      assert LowerChar(s[0 + (k + 1)]) == p[k + 1];
    }
  }

  lemma LongerMatch(s: string, p: string)
    requires p != "" && s != "" && LowerChar(s[0]) == p[0] && MatchesAt(s[1..], p[1..], 0)
    ensures MatchesAt(s, p, 0)
  {
    forall k | 0 < k < |p| ensures LowerChar(s[0 + k]) == p[k] {
      assert LowerChar(s[1..][0 + (k - 1)]) == p[1..][k - 1];
    }
  }

  /** Letters at the front of the output come from the front of the text. */
  lemma {:induction false} LettersComeFromTheText(t: string, name: string, p: string)
    requires name != "" && SmallLetters(p) && MatchesAt(WithoutBlocks(t, name), p, 0)
    ensures MatchesAt(t, p, 0) && WithoutBlocks(t, name) == t[..|p|] + WithoutBlocks(t[|p|..], name)
    decreases |p|
  {
    if p == "" {
      assert t[0..] == t;
    } else {
      LetterIsNoBlock(t, name, p);
      var out := WithoutBlocks(t, name);
      hide WithoutBlocks, BlockAt;
      ShorterMatch(out, p);
      hide MatchesAt;
      LettersComeFromTheText(t[1..], name, p[1..]);
      LongerMatch(t, p);
      assert |p| <= |t| by { LongEnough(t, p); }
      FirstLetters(t, |p|, WithoutBlocks(t[|p|..], name));
    }
  }

  lemma LongEnough(s: string, p: string)
    requires MatchesAt(s, p, 0)
    ensures |p| <= |s|
  {
  }

  lemma LetterIsNoBlock(t: string, name: string, p: string)
    requires name != "" && p != "" && SmallLetters(p) && MatchesAt(WithoutBlocks(t, name), p, 0)
    ensures var out := WithoutBlocks(t, name);
      t != "" && out != "" && out == [t[0]] + WithoutBlocks(t[1..], name) && out[1..] == WithoutBlocks(t[1..], name)
      && LowerChar(t[0]) == p[0]
  {
    var out := WithoutBlocks(t, name);
    FirstLetter(out, p);
    assert t != "" by { assert WithoutBlocks("", name) == ""; }
    forall l: nat ensures !BlockAt(t, name, 0, l) {
      if BlockAt(t, name, 0, l) {
        FrontBlockIsReplaced(t, name, l);
      }
    }
    hide *;
    NoBlockInFront(t, name);
  }

  lemma FirstLetter(s: string, p: string)
    requires p != "" && SmallLetters(p) && MatchesAt(s, p, 0)
    ensures s != "" && LowerChar(s[0]) == p[0] && s[0] != ' '
  {
    assert LowerChar(s[0 + 0]) == p[0];
  }

  lemma FirstLetters(t: string, n: nat, rest: string)
    requires 0 < n <= |t|
    ensures [t[0]] + (t[1..][..n - 1] + rest) == t[..n] + rest && t[1..][n - 1..] == t[n..]
  {
  }

  /** An opening part at the front that nothing closes. */
  lemma UnclosedStays(s: string, name: string)
    requires name != "" && MatchesAt(s, "<" + name, 0) && forall l :: !BlockAt(s, name, 0, l)
    ensures !HasBlock(s, name)
  {
    BlockHere(s, name);
    StartsMeansMatches(s, "<" + name, 0);
    assert s[0..] == s;
    OccursMeansMatches(s, "</" + name + ">", 1 + |name|);
  }

  /** After the pass no script or style block is left, whatever the replacement has brought together. */
  lemma {:induction false} NoBlocksLeft(s: string, name: string)
    requires name != "" && SmallLetters(name)
    ensures !HasBlock(WithoutBlocks(s, name), name)
    decreases |s|
  {
    var out := WithoutBlocks(s, name);
    if l: nat :| BlockAt(s, name, 0, l) {
      FrontBlockIsReplaced(s, name, l);
      var rest := s[l + |name| + 3..];
      NoBlocksLeft(rest, name);
      assert out[1..] == WithoutBlocks(rest, name);
      BlankOpensNothing(out, name);
      BlocksAreBehind(out, name);
    } else if s != "" {
      NoBlockInFront(s, name);
      NoBlocksLeft(s[1..], name);
      assert out[1..] == WithoutBlocks(s[1..], name);
      if MatchesAt(out, "<" + name, 0) {
        OpeningComesFromTheText(s, name);
        UnclosedStays(s, name);
        NoBlockNoChange(s, name);
      } else {
        BlocksAreBehind(out, name);
      }
    }
  }

  lemma BlocksAreBehind(out: string, name: string)
    requires out != "" && name != "" && !HasBlock(out[1..], name)
    requires !MatchesAt(out, "<" + name, 0)
    ensures !HasBlock(out, name)
  {
    hide MatchesAt;
    if i: nat, j: nat :| BlockAt(out, name, i, j) {
      BlockMoves(out, name, i - 1, j - 1);
    }
  }

  lemma BlankOpensNothing(out: string, name: string)
    requires out != "" && out[0] == ' '
    ensures !MatchesAt(out, "<" + name, 0)
  {
    assert LowerChar(out[0 + 0]) != ("<" + name)[0];
  }

  lemma OpeningComesFromTheText(s: string, name: string)
    requires name != "" && SmallLetters(name) && s != "" && forall l :: !BlockAt(s, name, 0, l)
    requires MatchesAt(WithoutBlocks(s, name), "<" + name, 0)
    ensures MatchesAt(s, "<" + name, 0)
  {
    var out := WithoutBlocks(s, name);
    NoBlockInFront(s, name);
    assert out[1..] == WithoutBlocks(s[1..], name) && out[0] == s[0];
    assert LowerChar(out[0 + 0]) == ("<" + name)[0];
    ShorterMatch(out, "<" + name);
    assert ("<" + name)[1..] == name;
    LettersComeFromTheText(s[1..], name, name);
    LongerMatch(s, "<" + name);
  }

  // ---------------------------------------------------------------- white space

  /** White space only as single blanks. */
  ghost predicate SingleBlanks(s: string) {
    forall i :: 0 <= i < |s| ==>
      && (IsSpace(s[i]) ==> s[i] == ' ')
      && (i + 1 < |s| ==> !IsSpace(s[i]) || !IsSpace(s[i + 1]))
  }

  lemma {:induction false} CollapsedShape(s: string)
    ensures SingleBlanks(Collapsed(s))
    ensures Collapsed(s) == "" <==> s == ""
    ensures s != "" ==> (if IsSpace(s[0]) then Collapsed(s)[0] == ' ' else Collapsed(s)[0] == s[0])
    ensures '>' in Collapsed(s) ==> '>' in s
    decreases |s|
  {
    if s != "" {
      var rest := if IsSpace(s[0]) then DropSpaces(s[1..]) else s[1..];
      CollapsedShape(rest);
      DropSpacesIsSuffix(s[1..]);
      var r := Collapsed(s);
      forall i | 0 <= i < |r|
        ensures (IsSpace(r[i]) ==> r[i] == ' ') && (i + 1 < |r| ==> !IsSpace(r[i]) || !IsSpace(r[i + 1]))
      {
        if i > 0 { assert r[i] == Collapsed(rest)[i - 1]; }
      }
    }
  }

  lemma {:induction false} DropSpacesIsSuffix(s: string)
    ensures DropSpaces(s) == s[|s| - |DropSpaces(s)|..]
    decreases |s|
  {
    if s != "" && IsSpace(s[0]) {
      DropSpacesIsSuffix(s[1..]);
    }
  }

  lemma PartHasNoTag(s: string, from: nat, to: nat)
    requires !HasTag(s) && from <= to <= |s|
    ensures !HasTag(s[from..to])
  {
    if i: nat, j: nat :| TagAt(s[from..to], i, j) {
      TagInWhole(s, from, to, i, j);
    }
  }

  lemma TagInWhole(s: string, from: nat, to: nat, i: nat, j: nat)
    requires from <= to <= |s| && TagAt(s[from..to], i, j)
    ensures TagAt(s, from + i, from + j)
  {
    forall k | from + i < k < from + j ensures s[k] != '>' {
      assert s[from..to][k - from] == s[k];
    }
  }

  /** Collapsing white space does not put a tag together. */
  lemma {:induction false} CollapseMakesNoTag(s: string)
    requires !HasTag(s)
    ensures !HasTag(Collapsed(s))
    decreases |s|
  {
    if s != "" {
      PartHasNoTag(s, 1, |s|);
      assert s[1..|s|] == s[1..];
      if IsSpace(s[0]) {
        var rest := DropSpaces(s[1..]);
        DropSpacesIsSuffix(s[1..]);
        PartHasNoTag(s[1..], |s[1..]| - |rest|, |s[1..]|);
        assert rest == s[1..][|s[1..]| - |rest|..|s[1..]|];
        CollapseMakesNoTag(rest);
        HasTagCons(' ', Collapsed(rest));
      } else {
        CollapseMakesNoTag(s[1..]);
        CollapsedShape(s[1..]);
        HasTagCons(s[0], Collapsed(s[1..]));
        HasTagCons(s[0], s[1..]);
        assert s == [s[0]] + s[1..];
      }
    }
  }

  lemma {:induction false} SingleBlanksCollapse(s: string)
    requires SingleBlanks(s)
    ensures Collapsed(s) == s
    decreases |s|
  {
    if s != "" {
      assert s == [s[0]] + s[1..];
      forall i | 0 <= i < |s[1..]| ensures s[1..][i] == s[i + 1] {
      }
      SingleBlanksCollapse(s[1..]);
      if IsSpace(s[0]) && s[1..] != "" {
        assert !IsSpace(s[1..][0]);
      }
    }
  }

  lemma {:induction false} DropTrailingIsPrefix(s: string)
    ensures var r := DropTrailing(s);
      |r| <= |s| && r == s[..|r|] && (r != "" ==> !IsSpace(r[|r| - 1]))
    decreases |s|
  {
    if s != "" && IsSpace(s[|s| - 1]) {
      DropTrailingIsPrefix(s[..|s| - 1]);
    }
  }

  ghost predicate NoOuterSpace(s: string) {
    s != "" ==> !IsSpace(s[0]) && !IsSpace(s[|s| - 1])
  }

  lemma PartHasSingleBlanks(s: string, from: nat, to: nat)
    requires SingleBlanks(s) && from <= to <= |s|
    ensures SingleBlanks(s[from..to])
  {
    hide IsSpace;
    var r := s[from..to];
    forall i | 0 <= i < |r|
      ensures (IsSpace(r[i]) ==> r[i] == ' ') && (i + 1 < |r| ==> !IsSpace(r[i]) || !IsSpace(r[i + 1]))
    {
      assert r[i] == s[from + i] && (i + 1 < |r| ==> r[i + 1] == s[from + i + 1]);
    }
  }

  lemma StrippedShape(s: string)
    requires SingleBlanks(s) && !HasTag(s)
    ensures SingleBlanks(Stripped(s)) && !HasTag(Stripped(s)) && NoOuterSpace(Stripped(s))
  {
    hide *;
    var from, to := StrippedIs(s);
    PartHasNoTag(s, from, to);
    PartHasSingleBlanks(s, from, to);
  }

  // ---------------------------------------------------------------- white space as a separator

  lemma CollapsedBlank(s: string)
    requires s != "" && IsSpace(s[0])
    ensures Collapsed(s) == " " + Collapsed(DropSpaces(s[1..]))
  {
  }

  lemma CollapsedOther(s: string)
    requires s != "" && !IsSpace(s[0])
    ensures Collapsed(s) == [s[0]] + Collapsed(s[1..])
  {
  }

  lemma FrontRun(run: string, y: string)
    requires y != "" ==> !IsSpace(y[0])
    requires run != "" && forall i :: 0 <= i < |run| ==> IsSpace(run[i])
    ensures Collapsed(run + y) == " " + Collapsed(y)
  {
    assert (run + y)[1..] == run[1..] + y;
    SpacesDrop(run[1..], y);
    CollapsedBlank(run + y);
  }

  /** A run of white space between two texts becomes one blank; text without such a run stays as it is
    * (SingleBlanksCollapse). */
  lemma {:induction false} RunIsOneBlank(x: string, run: string, y: string)
    requires x != "" ==> !IsSpace(x[|x| - 1])
    requires y != "" ==> !IsSpace(y[0])
    requires run != "" && forall i :: 0 <= i < |run| ==> IsSpace(run[i])
    ensures Collapsed(x + (run + y)) == Collapsed(x) + (" " + Collapsed(y))
    decreases |x|
  {
    var more := run + y;
    if x == "" {
      assert Collapsed(x) == "";
      hide Collapsed;
      FrontRun(run, y);
      assert x + more == more && "" + (" " + Collapsed(y)) == " " + Collapsed(y);
    } else {
      var rest := AfterFront(x, more);
      hide Collapsed;
      RunIsOneBlank(rest, run, y);
      CollapsedOneMore(x, more, rest, " " + Collapsed(y));
    }
  }

  /** What is left of x after its first character, or after the white space it begins with. */
  lemma AfterFront(x: string, more: string) returns (rest: string)
    requires x != "" && !IsSpace(x[|x| - 1])
    ensures rest == if IsSpace(x[0]) then DropSpaces(x[1..]) else x[1..]
    ensures |rest| < |x| && (rest != "" ==> !IsSpace(rest[|rest| - 1]))
    ensures IsSpace(x[0]) ==> DropSpaces(x[1..] + more) == rest + more
  {
    rest := x[1..];
    if IsSpace(x[0]) {
      DropsToTheSame(rest, more);
      DropSpacesIsSuffix(rest);
      rest := DropSpaces(rest);
    }
  }

  lemma Regroup(front: string, text: string, w: string)
    ensures front + (text + w) == (front + text) + w
  {
  }

  lemma CollapsedOneMore(x: string, more: string, rest: string, w: string)
    requires x != "" && rest == if IsSpace(x[0]) then DropSpaces(x[1..]) else x[1..]
    requires IsSpace(x[0]) ==> DropSpaces(x[1..] + more) == rest + more
    requires Collapsed(rest + more) == Collapsed(rest) + w
    ensures Collapsed(x + more) == Collapsed(x) + w
  {
    hide *;
    assert (x + more)[1..] == x[1..] + more && (x + more)[0] == x[0];
    if IsSpace(x[0]) {
      CollapsedBlank(x);
      CollapsedBlank(x + more);
      Regroup(" ", Collapsed(rest), w);
    } else {
      CollapsedOther(x);
      CollapsedOther(x + more);
      Regroup([x[0]], Collapsed(rest), w);
    }
  }

  lemma {:induction false} SpacesDrop(run: string, y: string)
    requires (y != "" ==> !IsSpace(y[0])) && forall i :: 0 <= i < |run| ==> IsSpace(run[i])
    ensures DropSpaces(run + y) == y
    decreases |run|
  {
    if run == "" {
      assert run + y == y;
    } else {
      assert (run + y)[1..] == run[1..] + y;
      SpacesDrop(run[1..], y);
    }
  }

  /** Leading white space of a text that ends otherwise lies in that text. */
  lemma {:induction false} DropsToTheSame(x: string, y: string)
    requires x != "" && !IsSpace(x[|x| - 1])
    ensures DropSpaces(x) != "" && DropSpaces(x + y) == DropSpaces(x) + y
    decreases |x|
  {
    if IsSpace(x[0]) {
      assert (x + y)[1..] == x[1..] + y;
      DropsToTheSame(x[1..], y);
    }
  }

  /** Stripping takes white space off the two ends and nothing else. */
  lemma StrippedIs(s: string) returns (from: nat, to: nat)
    ensures from <= to <= |s| && Stripped(s) == s[from..to] && NoOuterSpace(Stripped(s))
    ensures forall i :: (0 <= i < from || to <= i < |s|) ==> IsSpace(s[i])
  {
    var t := DropSpaces(s);
    DropSpacesIsSuffix(s);
    DropTrailingIsPrefix(t);
    DroppedAreSpaces(s);
    TrailingAreSpaces(t);
    assert Stripped(s) == DropTrailing(t);
    var n := |DropTrailing(t)|;
    from, to := |s| - |t|, |s| - |t| + n;
    assert t != "" ==> !IsSpace(t[0]);
    hide *;
    assert s[from..][..n] == s[from..to];
    forall i | to <= i < |s| ensures IsSpace(s[i]) {
      assert s[i] == t[i - from];
    }
    FrontStays(t, n);
  }

  lemma FrontStays(t: string, n: nat)
    requires n <= |t| && (t != "" ==> !IsSpace(t[0])) && (n > 0 ==> !IsSpace(t[n - 1]))
    ensures NoOuterSpace(t[..n])
  {
  }

  lemma {:induction false} DroppedAreSpaces(s: string)
    ensures forall i :: 0 <= i < |s| - |DropSpaces(s)| ==> IsSpace(s[i])
    decreases |s|
  {
    if s != "" && IsSpace(s[0]) {
      DroppedAreSpaces(s[1..]);
      assert forall i :: 1 <= i < |s| ==> s[i] == s[1..][i - 1];
    }
  }

  lemma {:induction false} TrailingAreSpaces(s: string)
    ensures forall i :: |DropTrailing(s)| <= i < |s| ==> IsSpace(s[i])
    decreases |s|
  {
    if s != "" && IsSpace(s[|s| - 1]) {
      TrailingAreSpaces(s[..|s| - 1]);
    }
  }

  // ---------------------------------------------------------------- main results

  /** What cleaning promises of its output: no tag, no run of two white-space characters, no outer
    * white space. */
  lemma CleanShape(s: string)
    ensures var r := Clean(s); !HasTag(r) && SingleBlanks(r) && NoOuterSpace(r)
  {
    var t := WithoutTags(WithoutBlocks(WithoutBlocks(s, "script"), "style"));
    NoTagsLeft(WithoutBlocks(WithoutBlocks(s, "script"), "style"));
    CollapsedShape(t);
    CollapseMakesNoTag(t);
    StrippedShape(Collapsed(t));
  }

  /** Cleaning reaches a fixed point in one pass. */
  lemma CleanIsIdempotent(s: string)
    ensures Clean(Clean(s)) == Clean(s)
  {
    var r := Clean(s);
    CleanShape(s);
    NoTagNoBlocks(r, "script");
    NoTagNoBlocks(r, "style");
    NoTagNoChange(r);
    SingleBlanksCollapse(r);
    assert Stripped(r) == r;
  }
}
