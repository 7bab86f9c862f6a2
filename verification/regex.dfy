/**
  The fragment of Python's `re.search` the status parser relies on:

      <service>.*?(?:<alt 0>|<alt 1>|...)      under IGNORECASE | DOTALL

  where the service pattern uses only literal characters, `\x` escapes and
  `.`, and the alternatives are plain words. Case folding is ASCII.
*/
module Regex {
  import opened Wrappers
  import opened Text

  // ---------------------------------------------------------------------
  // Service patterns
  // ---------------------------------------------------------------------

  /** One pattern position: a literal character, or `.` (any character,
      newlines included under DOTALL). */
  datatype Atom = Lit(c: char) | Any

  type Pattern = seq<Atom>

  /** Translates a pattern source: `\x` is the literal `x`, `.` is any
      character, every other character stands for itself. */
  function Compile(src: string): (p: Pattern)
    ensures |p| <= |src|
    ensures |src| > 0 ==> |p| > 0
    decreases |src|
  {
    if |src| == 0 then []
    else if src[0] == '\\' && |src| >= 2 then [Lit(src[1])] + Compile(src[2..])
    else if src[0] == '.' then [Any] + Compile(src[1..])
    else [Lit(src[0])] + Compile(src[1..])
  }

  /** The text a pattern source is written to recognise: escapes removed,
      `.` read as itself. */
  function Sample(src: string): string
    decreases |src|
  {
    if |src| == 0 then ""
    else if src[0] == '\\' && |src| >= 2 then [src[1]] + Sample(src[2..])
    else [src[0]] + Sample(src[1..])
  }

  /** IGNORECASE comparison of one position. */
  predicate AtomMatches(a: Atom, c: char) {
    a.Any? || FoldEq(a.c, c)
  }

  /** Pattern `p` matches all of `s`, position by position. */
  predicate AtomsMatch(p: Pattern, s: string) {
    |p| == |s| && forall k {:trigger AtomMatches(p[k], s[k])} :: 0 <= k < |p| ==> AtomMatches(p[k], s[k])
  }

  /** Pattern `p` matches `t` starting at index `i`. */
  predicate MatchesAt(p: Pattern, t: string, i: nat) {
    i + |p| <= |t| && AtomsMatch(p, t[i..i + |p|])
  }

  /** A compiled pattern recognises its own sample, as written and in
      lower case. */
  lemma {:induction false} SampleMatches(src: string)
    ensures |Sample(src)| == |Compile(src)|
    ensures forall k :: 0 <= k < |Compile(src)| ==>
              AtomMatches(Compile(src)[k], Sample(src)[k])
              && AtomMatches(Compile(src)[k], LowerChar(Sample(src)[k]))
    decreases |src|
  {
    if |src| == 0 {
    } else {
      var n := if src[0] == '\\' && |src| >= 2 then 2 else 1;
      SampleMatches(src[n..]);
      var c, w := Compile(src[n..]), Sample(src[n..]);
      var ch := if n == 2 then src[1] else src[0];
      assert Sample(src) == [ch] + w;
      assert Compile(src) == [if n == 1 && src[0] == '.' then Any else Lit(ch)] + c;
      forall k | 0 <= k < |Compile(src)|
        ensures AtomMatches(Compile(src)[k], Sample(src)[k])
        ensures AtomMatches(Compile(src)[k], LowerChar(Sample(src)[k]))
      {
        if k == 0 {
          LitMatchesLower(ch);
        } else {
          assert Compile(src)[k] == c[k - 1] && Sample(src)[k] == w[k - 1];
        }
      }
    }
  }

  /** A literal matches its own character in lower case. */
  lemma LitMatchesLower(c: char)
    ensures AtomMatches(Lit(c), c) && AtomMatches(Lit(c), LowerChar(c))
  {
  }

  /** The compiled pattern matches its sample. */
  lemma MatchesSample(src: string)
    ensures AtomsMatch(Compile(src), Sample(src))
  {
    SampleMatches(src);
  }

  /** The compiled pattern matches its sample in lower case. */
  lemma MatchesLowerSample(src: string)
    ensures AtomsMatch(Compile(src), Lower(Sample(src)))
  {
    SampleMatches(src);
  }

  /** A pattern that matches the first characters of a text matches the
      text at index 0. */
  lemma MatchesAtStart(p: Pattern, name: string, rest: string)
    requires AtomsMatch(p, name)
    ensures MatchesAt(p, name + rest, 0)
  {
    assert (name + rest)[0..|p|] == name;
  }

  // ---------------------------------------------------------------------
  // The alternation
  // ---------------------------------------------------------------------

  /** Word `w` occurs in `t` at index `j`, ignoring ASCII case. */
  predicate FoldOccursAt(w: string, t: string, j: nat) {
    j + |w| <= |t| && FoldEqSeq(w, t[j..j + |w|])
  }

  /** Two strings are equal up to ASCII case. */
  predicate FoldEqSeq(a: string, b: string) {
    |a| == |b| && forall m {:trigger FoldEq(a[m], b[m])} :: 0 <= m < |a| ==> FoldEq(a[m], b[m])
  }

  /** Index of the first alternative, from `i` on, matching `t` at `j`. */
  function FirstAlt(alts: seq<string>, t: string, j: nat, i: nat): (r: Option<nat>)
    ensures r.Some? ==> i <= r.value < |alts| && FoldOccursAt(alts[r.value], t, j)
    ensures r.Some? ==> forall a {:trigger FoldOccursAt(alts[a], t, j)} :: i <= a < r.value ==> !FoldOccursAt(alts[a], t, j)
    ensures r.None? ==> forall a {:trigger FoldOccursAt(alts[a], t, j)} :: i <= a < |alts| ==> !FoldOccursAt(alts[a], t, j)
    decreases |alts| - i
  {
    if i >= |alts| then None
    else if FoldOccursAt(alts[i], t, j) then Some(i)
    else FirstAlt(alts, t, j, i + 1)
  }

  /** The alternative the engine takes at `j`: the first one, in written
      order, that matches there. */
  function AltAt(alts: seq<string>, t: string, j: nat): Option<nat> {
    FirstAlt(alts, t, j, 0)
  }

  /** The engine takes alternative `r` at `j` when it matches there and no
      earlier one does. */
  lemma AltAtIs(alts: seq<string>, t: string, j: nat, r: nat)
    requires r < |alts| && FoldOccursAt(alts[r], t, j)
    requires forall a :: 0 <= a < r ==> !FoldOccursAt(alts[a], t, j)
    ensures AltAt(alts, t, j) == Some(r)
  {
  }

  /** No alternative matches where the text has a character that cannot
      start any of them (up to case). */
  lemma NoAltAt(alts: seq<string>, t: string, j: nat)
    requires j < |t|
    requires forall a :: 0 <= a < |alts| ==> |alts[a]| > 0 && !FoldEq(alts[a][0], t[j])
    ensures AltAt(alts, t, j).None?
  {
    forall a | 0 <= a < |alts|
      ensures !FoldOccursAt(alts[a], t, j)
    {
      if j + |alts[a]| <= |t| {
        assert !FoldEq(alts[a][0], t[j..j + |alts[a]|][0]);
      }
    }
  }

  // ---------------------------------------------------------------------
  // Scanning
  // ---------------------------------------------------------------------

  /** The first index at or after `from` where `p` matches. */
  function FindPattern(p: Pattern, t: string, from: nat): (r: Option<nat>)
    ensures r.Some? ==> from <= r.value && MatchesAt(p, t, r.value)
    ensures r.Some? ==> forall i :: from <= i < r.value ==> !MatchesAt(p, t, i)
    ensures r.None? ==> forall i :: from <= i ==> !MatchesAt(p, t, i)
    decreases |t| + 1 - from
  {
    if from > |t| then None
    else if MatchesAt(p, t, from) then Some(from)
    else FindPattern(p, t, from + 1)
  }

  /** The first index at or after `from` where some alternative matches. */
  function FindAlt(alts: seq<string>, t: string, from: nat): (r: Option<nat>)
    ensures r.Some? ==> from <= r.value && AltAt(alts, t, r.value).Some?
    ensures r.None? ==> forall j :: from <= j ==> AltAt(alts, t, j).None?
    decreases |t| + 1 - from
  {
    if from > |t| then None
    else if AltAt(alts, t, from).Some? then Some(from)
    else FindAlt(alts, t, from + 1)
  }

  /** No alternative matches strictly between `from` and the index found. */
  lemma {:induction false} FindAltIsFirst(alts: seq<string>, t: string, from: nat)
    requires FindAlt(alts, t, from).Some?
    ensures forall j :: from <= j < FindAlt(alts, t, from).value ==> AltAt(alts, t, j).None?
    decreases |t| + 1 - from
  {
    if AltAt(alts, t, from).None? {
      FindAltIsFirst(alts, t, from + 1);
    }
  }

  // ---------------------------------------------------------------------
  // re.search
  // ---------------------------------------------------------------------

  /** A match of the whole regex: the service pattern at `start`, the lazy
      gap, then alternative number `alt` at `at`. */
  datatype Match = Match(start: nat, at: nat, alt: nat)

  /** Reference meaning of "the regex matches with these choices". */
  ghost predicate RegexMatch(p: Pattern, alts: seq<string>, t: string, m: Match) {
    MatchesAt(p, t, m.start) && m.start + |p| <= m.at
    && m.alt < |alts| && FoldOccursAt(alts[m.alt], t, m.at)
  }

  /** The backtracking engine's preference: leftmost start, then the
      shortest gap (lazy `.*?`), then the earliest alternative. */
  predicate Preferred(a: Match, b: Match) {
    a.start < b.start
    || (a.start == b.start && (a.at < b.at || (a.at == b.at && a.alt <= b.alt)))
  }

  function Search(p: Pattern, alts: seq<string>, t: string): (r: Option<Match>)
    ensures r.Some? ==> RegexMatch(p, alts, t, r.value)
  {
    match FindPattern(p, t, 0)
    case None => None
    case Some(i) =>
      match FindAlt(alts, t, i + |p|)
      case None => None
      case Some(j) => Some(Match(i, j, AltAt(alts, t, j).value))
  }

  /** `Search` is `re.search`: it fails exactly when no match exists, and
      otherwise returns the match the engine prefers over every other. */
  lemma SearchIsRegexSearch(p: Pattern, alts: seq<string>, t: string)
    ensures Search(p, alts, t).None? <==> forall m :: !RegexMatch(p, alts, t, m)
    ensures Search(p, alts, t).Some? ==>
              forall m :: RegexMatch(p, alts, t, m) ==> Preferred(Search(p, alts, t).value, m)
  {
    var fp := FindPattern(p, t, 0);
    if fp.None? {
      assert Search(p, alts, t).None?;
      NoPatternNoMatch(p, alts, t);
    } else {
      var i := fp.value;
      var fa := FindAlt(alts, t, i + |p|);
      if fa.None? {
        assert Search(p, alts, t).None?;
        NoAltNoMatch(p, alts, t, i);
      } else {
        var j := fa.value;
        forall m | RegexMatch(p, alts, t, m)
          ensures Preferred(Match(i, j, AltAt(alts, t, j).value), m)
        {
          LaterMatch(p, alts, t, m, i);
          FoundIsPreferred(alts, t, i, i + |p|, j, m);
        }
        assert Search(p, alts, t) == Some(Match(i, j, AltAt(alts, t, j).value));
      }
    }
  }

  /** Without an occurrence of the pattern there is no match. */
  lemma NoPatternNoMatch(p: Pattern, alts: seq<string>, t: string)
    requires FindPattern(p, t, 0).None?
    ensures forall m :: !RegexMatch(p, alts, t, m)
  {
    forall m | RegexMatch(p, alts, t, m)
      ensures false
    {
    }
  }

  /** Without a keyword after the first occurrence of the pattern there is
      no match. */
  lemma NoAltNoMatch(p: Pattern, alts: seq<string>, t: string, i: nat)
    requires FindPattern(p, t, 0) == Some(i) && FindAlt(alts, t, i + |p|).None?
    ensures forall m :: !RegexMatch(p, alts, t, m)
  {
    forall m | RegexMatch(p, alts, t, m)
      ensures false
    {
      LaterMatch(p, alts, t, m, i);
    }
  }

  /** A match starting no earlier than `i`, whose keyword sits at or after
      `from` and is no earlier an alternative than the one taken there,
      is beaten by the match at `i` with the first keyword from `from`. */
  lemma FoundIsPreferred(alts: seq<string>, t: string, i: nat, from: nat, j: nat, m: Match)
    requires FindAlt(alts, t, from) == Some(j)
    requires i <= m.start && from <= m.at
    requires AltAt(alts, t, m.at).Some? && AltAt(alts, t, m.at).value <= m.alt
    ensures AltAt(alts, t, j).Some?
    ensures Preferred(Match(i, j, AltAt(alts, t, j).value), m)
  {
    FoundBeats(alts, t, from, m.at);
  }

  /** A keyword position at or after `from` is not before the first one. */
  lemma FoundBeats(alts: seq<string>, t: string, from: nat, at: nat)
    requires from <= at && AltAt(alts, t, at).Some?
    ensures FindAlt(alts, t, from).Some? && FindAlt(alts, t, from).value <= at
  {
    if FindAlt(alts, t, from).value > at {
      FindAltIsFirst(alts, t, from);
    }
  }

  /** Every match starts at or after the first occurrence of the pattern,
      and its alternative is taken where one matches. */
  lemma LaterMatch(p: Pattern, alts: seq<string>, t: string, m: Match, i: nat)
    requires FindPattern(p, t, 0) == Some(i)
    requires RegexMatch(p, alts, t, m)
    ensures i <= m.start && i + |p| <= m.at
    ensures AltAt(alts, t, m.at).Some? && AltAt(alts, t, m.at).value <= m.alt
  {
  }

  /** The text of a match: from the start of the service name to the end
      of the alternative (`match.group(0)`). */
  function MatchedText(alts: seq<string>, t: string, m: Match): (span: string)
    requires m.start <= m.at && m.alt < |alts| && m.at + |alts[m.alt]| <= |t|
    ensures |span| == m.at + |alts[m.alt]| - m.start
  {
    t[m.start..m.at + |alts[m.alt]|]
  }
}
