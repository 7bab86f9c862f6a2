/**
  The status-page parser shared by both monitor variants
  (`parse_status_content`).

  For each of thirteen services the bot runs `re.search` with
  `<service>.*?(?:Operational|Degraded Performance|Partial Outage|Major Outage|Maintenance)`
  under IGNORECASE and DOTALL, then classifies the matched text with
  case-SENSITIVE substring tests over the same five words, in the same
  order. The overall verdict comes from three banner phrases looked up,
  case-sensitively, in the whole page.
*/
module StatusParser {
  import opened Wrappers
  import opened Text
  import opened Regex

  // ---------------------------------------------------------------------
  // Services, in the order of the bot's dictionary
  // ---------------------------------------------------------------------

  datatype Service = FiveM | RedM | FXServer | GameServices | CnL | Policy
                   | Keymaster | WebServices | Forums | ServerList | Runtime
                   | IDMS | Portal

  const Services: seq<Service> :=
    [FiveM, RedM, FXServer, GameServices, CnL, Policy, Keymaster,
     WebServices, Forums, ServerList, Runtime, IDMS, Portal]

  const AllServices: set<Service> := set s | s in Services

  lemma EveryServiceListed(s: Service)
    ensures s in Services && s in AllServices
  {
  }

  /** The regular-expression source the bot uses for each service. */
  function PatternSource(s: Service): (src: string)
    ensures |src| > 0
  {
    match s
    case FiveM => "FiveM"
    case RedM => "RedM"
    case FXServer => "Cfx.re Platform Server \\(FXServer\\)"
    case GameServices => "Game Services"
    case CnL => "CnL"
    case Policy => "Policy"
    case Keymaster => "Keymaster"
    case WebServices => "Web Services"
    case Forums => "Forums"
    case ServerList => "Server List Frontend"
    case Runtime => "\"Runtime\""
    case IDMS => "IDMS"
    case Portal => "Portal"
  }

  // ---------------------------------------------------------------------
  // Keywords
  // ---------------------------------------------------------------------

  datatype Keyword = KOperational | KDegraded | KPartial | KMajor | KMaintenance

  /** The alternation of the regex and the classification tests use the
      same words in the same order. */
  const Keywords: seq<string> :=
    ["Operational", "Degraded Performance", "Partial Outage", "Major Outage", "Maintenance"]

  function Rank(k: Keyword): (r: nat)
    ensures r < |Keywords|
  {
    match k
    case KOperational => 0
    case KDegraded => 1
    case KPartial => 2
    case KMajor => 3
    case KMaintenance => 4
  }

  function KeywordOfRank(i: nat): (k: Keyword)
    requires i < |Keywords|
    ensures Rank(k) == i
  {
    if i == 0 then KOperational
    else if i == 1 then KDegraded
    else if i == 2 then KPartial
    else if i == 3 then KMajor
    else KMaintenance
  }

  lemma RankInjective(k: Keyword, q: Keyword)
    requires Rank(k) == Rank(q)
    ensures k == q
  {
  }

  function KeywordText(k: Keyword): string {
    Keywords[Rank(k)]
  }

  /** Every keyword starts with an upper-case letter. */
  lemma KeywordsStartUpper()
    ensures forall a :: 0 <= a < |Keywords| ==> |Keywords[a]| > 0 && IsUpper(Keywords[a][0])
  {
  }

  /** What makes a list of words unambiguous for the parser: each starts
      with an upper-case letter, no word contains an earlier one, and an
      earlier word that fits wherever a later one does starts with a
      different letter. */
  ghost predicate Separated(words: seq<string>) {
    (forall a :: 0 <= a < |words| ==> |words[a]| > 0 && IsUpper(words[a][0]))
    && (forall a, b :: 0 <= a < b < |words| ==> !Contains(words[b], words[a]))
    && (forall a, b :: 0 <= a < b < |words| && |words[a]| <= |words[b]| ==>
          !FoldEq(words[a][0], words[b][0]))
  }

  /** Each earlier keyword has a character the later one lacks. */
  lemma KeywordsNotNested(a: nat, b: nat)
    requires a < b < |Keywords|
    ensures !Contains(Keywords[b], Keywords[a])
  {
    if a == 0 {
      AbsentChar(Keywords[b], Keywords[a], 'p');
    } else if a == 1 {
      AbsentChar(Keywords[b], Keywords[a], 'D');
    } else if a == 2 {
      AbsentChar(Keywords[b], Keywords[a], 'P');
    } else {
      AbsentChar(Keywords[b], Keywords[a], 'j');
    }
  }

  /** Keywords share a first letter only when the earlier one is longer
      ("Major Outage" before "Maintenance"). */
  lemma KeywordInitials(a: nat, b: nat)
    requires a < b < |Keywords| && |Keywords[a]| <= |Keywords[b]|
    ensures !FoldEq(Keywords[a][0], Keywords[b][0])
  {
  }

  lemma KeywordsSeparated()
    ensures Separated(Keywords)
  {
    KeywordsStartUpper();
    forall a, b | 0 <= a < b < |Keywords|
      ensures !Contains(Keywords[b], Keywords[a])
    {
      KeywordsNotNested(a, b);
    }
    forall a, b | 0 <= a < b < |Keywords| && |Keywords[a]| <= |Keywords[b]|
      ensures !FoldEq(Keywords[a][0], Keywords[b][0])
    {
      KeywordInitials(a, b);
    }
  }

  // ---------------------------------------------------------------------
  // Classification of the matched text
  // ---------------------------------------------------------------------

  /** Index of the first of `words`, from `i` on, that `span` contains
      (case-sensitively); `|words|` when there is none. */
  function FirstContained(words: seq<string>, span: string, i: nat): (r: nat)
    requires i <= |words|
    ensures i <= r <= |words|
    ensures r < |words| ==> Contains(span, words[r])
    ensures forall a :: i <= a < r ==> !Contains(span, words[a])
    decreases |words| - i
  {
    if i == |words| then i
    else if Contains(span, words[i]) then i
    else FirstContained(words, span, i + 1)
  }

  /** A service's status: a recognised keyword, a match whose text holds no
      keyword in its exact case ("Desconocido"), or no match at all
      ("No disponible"). */
  datatype Status = Reported(k: Keyword) | Unknown | Unavailable

  /** The `if "Operational" in text: ... elif ...` chain. */
  function Classify(span: string): (r: Status)
    ensures r != Unavailable
    ensures r.Reported? ==> Contains(span, KeywordText(r.k))
    ensures r.Reported? ==> forall q :: Rank(q) < Rank(r.k) ==> !Contains(span, KeywordText(q))
    ensures r.Unknown? <==> forall q :: !Contains(span, KeywordText(q))
  {
    var c := FirstContained(Keywords, span, 0);
    if c < |Keywords| then Reported(KeywordOfRank(c)) else Unknown
  }

  /** The status reported for a service whose compiled pattern is `p`. */
  function StatusFor(p: Pattern, t: string): Status {
    match Search(p, Keywords, t)
    case None => Unavailable
    case Some(m) => Classify(MatchedText(Keywords, t, m))
  }

  function ServiceStatus(s: Service, t: string): Status {
    StatusFor(Compile(PatternSource(s)), t)
  }

  /** "No disponible" exactly when the regex cannot match. */
  lemma UnavailableIffNoMatch(p: Pattern, t: string)
    ensures StatusFor(p, t) == Unavailable <==> forall m :: !RegexMatch(p, Keywords, t, m)
  {
    SearchIsRegexSearch(p, Keywords, t);
  }

  /** A text that contains word `a` is classified by word `a` or an
      earlier one. */
  lemma FirstContainedAtMost(words: seq<string>, span: string, a: nat)
    requires a < |words| && Contains(span, words[a])
    ensures FirstContained(words, span, 0) <= a
  {
  }

  /** A text without upper-case letters contains none of a list of words
      that all start with one. */
  lemma NoUpperContainsNone(words: seq<string>, span: string)
    requires forall a :: 0 <= a < |words| ==> |words[a]| > 0 && IsUpper(words[a][0])
    requires NoUpper(span)
    ensures FirstContained(words, span, 0) == |words|
  {
    var r := FirstContained(words, span, 0);
    if r < |words| {
      NoUpperExcludes(span, words[r]);
    }
  }

  /** The matched text holds the word the regex stopped at, whenever that
      word is written in its exact case. */
  lemma MatchedTextHoldsWord(words: seq<string>, t: string, m: Match)
    requires m.start <= m.at && m.alt < |words| && m.at + |words[m.alt]| <= |t|
    requires t[m.at..m.at + |words[m.alt]|] == words[m.alt]
    ensures Contains(MatchedText(words, t, m), words[m.alt])
  {
    var span := MatchedText(words, t, m);
    var w := words[m.alt];
    assert span == t[m.start..m.at + |w|];
    assert span[m.at - m.start..m.at - m.start + |w|] == t[m.at..m.at + |w|];
    assert OccursAt(w, span, m.at - m.start);
  }

  /** When the keyword the regex stopped at is written in its exact case,
      the status is that keyword or one of higher priority, never
      "Desconocido". */
  lemma ExactCaseNeverUnknown(p: Pattern, t: string)
    requires Search(p, Keywords, t).Some?
    requires var m := Search(p, Keywords, t).value;
             t[m.at..m.at + |Keywords[m.alt]|] == Keywords[m.alt]
    ensures StatusFor(p, t).Reported?
    ensures Rank(StatusFor(p, t).k) <= Search(p, Keywords, t).value.alt
  {
    var m := Search(p, Keywords, t).value;
    MatchedTextHoldsWord(Keywords, t, m);
    FirstContainedAtMost(Keywords, MatchedText(Keywords, t, m), m.alt);
  }

  /** Classification is case-sensitive: on text without upper-case letters
      (every keyword starts with one) no service is ever reported with a
      keyword, even when its regex matches. */
  lemma NoUpperNeverReported(p: Pattern, t: string)
    requires NoUpper(t)
    ensures !StatusFor(p, t).Reported?
  {
    match Search(p, Keywords, t)
    case None =>
    case Some(m) =>
      NoUpperSlice(t, m.start, m.at + |Keywords[m.alt]|);
      KeywordsStartUpper();
      NoUpperContainsNone(Keywords, MatchedText(Keywords, t, m));
  }

  /** Where word `a` stands, an earlier word that fits in the text does
      not match. */
  lemma EarlierWordAbsent(words: seq<string>, t: string, j: nat, a: nat, b: nat, extra: nat)
    requires Separated(words) && b < a < |words|
    requires j + |words[a]| + extra == |t| && t[j..j + |words[a]|] == words[a]
    requires a == 0 || extra == 0
    ensures !FoldOccursAt(words[b], t, j)
  {
    var u := words[b];
    if j + |u| <= |t| {
      assert |u| <= |words[a]|;
      assert t[j..j + |u|][0] == t[j] == words[a][0];
      assert !FoldEq(u[0], words[a][0]);
      assert !FoldEq(u[0], t[j..j + |u|][0]);
    }
  }

  /** With a name the pattern matches, a space, and word `a` right after
      it, the regex stops at word `a`. */
  lemma FindsWordAfterName(p: Pattern, words: seq<string>, name: string, a: nat, rest: string)
    requires Separated(words) && a < |words|
    requires AtomsMatch(p, name)
    requires a == 0 || rest == ""
    ensures Search(p, words, name + " " + words[a] + rest) == Some(Match(0, |name| + 1, a))
  {
    var t := name + " " + words[a] + rest;
    var w := words[a];
    var n := |name|;
    MatchesAtStart(p, name, " " + words[a] + rest);
    assert name + (" " + words[a] + rest) == t;
    assert FindPattern(p, t, 0) == Some(0);
    forall b | 0 <= b < |words|
      ensures |words[b]| > 0 && !FoldEq(words[b][0], t[n])
    {
      assert t[n] == ' ';
    }
    NoAltAt(words, t, n);
    assert t[n + 1..n + 1 + |w|] == w;
    forall b | 0 <= b < a
      ensures !FoldOccursAt(words[b], t, n + 1)
    {
      EarlierWordAbsent(words, t, n + 1, a, b, |rest|);
    }
    AltAtIs(words, t, n + 1, a);
    assert FindAlt(words, t, n) == Some(n + 1);
  }

  /** In `name + " " + words[a]` with a lower-case name, the first word
      contained (case-sensitively) is word `a`. */
  lemma FirstContainedAfterLowerName(words: seq<string>, name: string, a: nat)
    requires Separated(words) && a < |words| && NoUpper(name)
    ensures FirstContained(words, name + " " + words[a], 0) == a
  {
    var w := words[a];
    var t := name + " " + w;
    ContainsConcat(name + " ", w, "");
    assert name + " " + w + "" == t;
    forall b | 0 <= b < a
      ensures !Contains(t, words[b])
    {
      if Contains(t, words[b]) {
        ContainsPastPrefix(name + " ", w, words[b]);
      }
    }
  }

  /** A service named (in lower case) right before a keyword gets that
      keyword's status: the pattern folds case, the space cannot start a
      keyword, and no earlier keyword hides in the later one. */
  lemma KeywordRecovered(s: Service, k: Keyword)
    ensures ServiceStatus(s, Lower(Sample(PatternSource(s))) + " " + KeywordText(k)) == Reported(k)
  {
    var src := PatternSource(s);
    var name := Lower(Sample(src));
    var t := name + " " + KeywordText(k);
    KeywordsSeparated();
    MatchesLowerSample(src);
    assert t + "" == t;
    FindsWordAfterName(Compile(src), Keywords, name, Rank(k), "");
    var m := Match(0, |name| + 1, Rank(k));
    assert MatchedText(Keywords, t, m) == t;
    FirstContainedAfterLowerName(Keywords, name, Rank(k));
  }

  /** The first word right after the name is the one the text starts
      with, so it is the first word the matched text contains. */
  lemma FirstWordAfterName(p: Pattern, words: seq<string>, name: string, rest: string)
    requires Separated(words) && 0 < |words|
    requires AtomsMatch(p, name)
    ensures var t := name + " " + words[0] + rest;
            var m := Match(0, |name| + 1, 0);
            Search(p, words, t) == Some(m) && FirstContained(words, MatchedText(words, t, m), 0) == 0
  {
    var w := words[0];
    var t := name + " " + w + rest;
    FindsWordAfterName(p, words, name, 0, rest);
    var m := Match(0, |name| + 1, 0);
    var span := MatchedText(words, t, m);
    assert span == name + " " + w;
    ContainsConcat(name + " ", w, "");
    assert name + " " + w + "" == span;
  }

  /** The status follows from the match found and the first keyword its
      text contains. */
  lemma StatusForIs(p: Pattern, t: string, m: Match, c: nat)
    requires Search(p, Keywords, t) == Some(m)
    requires c < |Keywords| && FirstContained(Keywords, MatchedText(Keywords, t, m), 0) == c
    ensures StatusFor(p, t) == Reported(KeywordOfRank(c))
  {
  }

  /** A name written exactly as a pattern source reads, followed by a
      space and "Operational", is reported operational whatever comes
      after. */
  lemma OperationalRecovered(src: string, rest: string)
    ensures StatusFor(Compile(src), Sample(src) + " " + KeywordText(KOperational) + rest)
            == Reported(KOperational)
  {
    var name := Sample(src);
    KeywordsSeparated();
    MatchesSample(src);
    FirstWordAfterName(Compile(src), Keywords, name, rest);
    StatusForIs(Compile(src), name + " " + Keywords[0] + rest, Match(0, |name| + 1, 0), 0);
  }

  /** A text shorter than the pattern cannot match it. */
  lemma ShortTextUnavailable(p: Pattern, t: string)
    requires |t| < |p|
    ensures StatusFor(p, t) == Unavailable
  {
  }

  // ---------------------------------------------------------------------
  // Overall verdict
  // ---------------------------------------------------------------------

  datatype Overall = AllOperational | SomeIssues | MajorServiceOutage | OverallUnknown

  const AllClearBanner: string := "All Systems Operational"
  const IssuesBanner: string := "Some Systems Experiencing Issues"
  const OutageBanner: string := "Major Service Outage"

  /** The first banner found (case-sensitively) decides; the all-clear
      banner outranks the others even when they also appear. */
  function OverallOf(t: string): (r: Overall)
    ensures r == AllOperational <==> Contains(t, AllClearBanner)
    ensures r == SomeIssues <==> !Contains(t, AllClearBanner) && Contains(t, IssuesBanner)
    ensures r == MajorServiceOutage <==>
              !Contains(t, AllClearBanner) && !Contains(t, IssuesBanner) && Contains(t, OutageBanner)
    ensures r == OverallUnknown <==>
              !Contains(t, AllClearBanner) && !Contains(t, IssuesBanner) && !Contains(t, OutageBanner)
  {
    if Contains(t, AllClearBanner) then AllOperational
    else if Contains(t, IssuesBanner) then SomeIssues
    else if Contains(t, OutageBanner) then MajorServiceOutage
    else OverallUnknown
  }

  /** Banners are matched case-sensitively: lower-cased text has no
      verdict. */
  lemma NoUpperOverallUnknown(t: string)
    requires NoUpper(t)
    ensures OverallOf(t) == OverallUnknown
  {
    NoUpperExcludes(t, AllClearBanner);
    NoUpperExcludes(t, IssuesBanner);
    NoUpperExcludes(t, OutageBanner);
  }

  // ---------------------------------------------------------------------
  // The parsed snapshot
  // ---------------------------------------------------------------------

  datatype Snapshot = Snapshot(services: map<Service, Status>, overall: Overall)

  predicate WellFormed(snap: Snapshot) {
    snap.services.Keys == AllServices
  }

  /** `parse_status_content`: total, one status per service. */
  function Parse(t: string): (r: Snapshot)
    ensures WellFormed(r)
  {
    Snapshot(map s | s in AllServices :: ServiceStatus(s, t), OverallOf(t))
  }

  /** An empty page reports every service unavailable and no verdict. */
  lemma ParseEmptyPage()
    ensures forall s :: s in Parse("").services ==> Parse("").services[s] == Unavailable
    ensures Parse("").overall == OverallUnknown
  {
    forall s | s in AllServices
      ensures ServiceStatus(s, "") == Unavailable
    {
      ShortTextUnavailable(Compile(PatternSource(s)), "");
    }
    assert NoUpper("");
    NoUpperOverallUnknown("");
  }

  /** A lower-cased page never yields a keyword status nor a verdict. */
  lemma ParseLowercasePage(t: string)
    requires NoUpper(t)
    ensures forall s :: s in Parse(t).services ==> !Parse(t).services[s].Reported?
    ensures Parse(t).overall == OverallUnknown
  {
    forall s | s in AllServices
      ensures !ServiceStatus(s, t).Reported?
    {
      NoUpperNeverReported(Compile(PatternSource(s)), t);
    }
    NoUpperOverallUnknown(t);
  }

  /** A page that starts "FiveM Operational" reports FiveM operational,
      and the all-clear banner anywhere after it gives the all-clear
      verdict. */
  lemma ParseFiveMOperational(rest: string)
    ensures Parse("FiveM Operational" + rest).services[FiveM] == Reported(KOperational)
    ensures Contains(rest, AllClearBanner) ==>
              Parse("FiveM Operational" + rest).overall == AllOperational
  {
    var t := "FiveM Operational" + rest;
    var name := Sample(PatternSource(FiveM));
    assert name == "FiveM";
    assert name + " " + KeywordText(KOperational) == "FiveM Operational";
    OperationalRecovered(PatternSource(FiveM), rest);
    ParseLookup(t, FiveM);
    if Contains(rest, AllClearBanner) {
      ContainsExtend("FiveM Operational", rest, AllClearBanner);
    }
  }

  lemma ParseLookup(t: string, s: Service)
    ensures s in Parse(t).services && Parse(t).services[s] == ServiceStatus(s, t)
  {
    EveryServiceListed(s);
  }
}
