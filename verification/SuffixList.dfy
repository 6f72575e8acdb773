/** The suffix loop against the Public Suffix List as it is written: the texts of
    its two sections (`extension/site-match.js`). */
module SuffixList {
  import opened Strings
  import opened Hosts
  import opened SiteMatch

  // ---- The list's own terms

  /** A line of the list and whether it stands in the private section. */
  datatype Line = Line(text: string, isPrivate: bool)

  /** The lines of a section that are not empty. */
  function SectionLines(texts: seq<string>, isPrivate: bool): seq<Line> {
    if texts == [] then []
    else (if texts[0] == "" then [] else [Line(texts[0], isPrivate)]) + SectionLines(texts[1..], isPrivate)
  }

  function Lines(icann: seq<string>, private_: seq<string>): seq<Line> {
    SectionLines(icann, false) + SectionLines(private_, true)
  }

  predicate IsException(text: string) {
    text != "" && text[0] == '!'
  }

  /** The labels of a line, without the mark of an exception. */
  function LabelsOf(text: string): (labels: seq<string>)
    ensures labels != []
  {
    Split(if IsException(text) then text[1..] else text, '.')
  }

  /** A host matches a line when, from the right, each label of the line is the
      host's or `*`. */
  predicate Covers(text: string, labels: seq<string>) {
    var p := LabelsOf(text);
    && |p| <= |labels|
    && forall k | 0 <= k < |p| :: p[k] == "*" || p[k] == labels[|labels| - |p| + k]
  }

  predicate IsWild(text: string) {
    LabelsOf(text)[0] == "*"
  }

  /** `*` stands only for the first of several labels, never in an exception,
      and an exception has a suffix. */
  predicate IsSound(text: string) {
    var p := LabelsOf(text);
    && (forall k | 0 <= k < |p| && p[k] == "*" :: k == 0 && |p| > 1 && !IsException(text))
    && (IsException(text) ==> |p| > 1)
  }

  predicate AreSound(ls: seq<Line>) {
    forall k | 0 <= k < |ls| :: IsSound(ls[k].text)
  }

  /** Line `k` goes before line `j`: exceptions first, then the one with more
      labels, one without `*` before one with it, the later of two alike. */
  predicate Precedes(ls: seq<Line>, k: nat, j: nat)
    requires k < |ls| && j < |ls|
  {
    var a, b := ls[k].text, ls[j].text;
    if IsException(a) != IsException(b) then IsException(a)
    else if |LabelsOf(a)| != |LabelsOf(b)| then |LabelsOf(a)| > |LabelsOf(b)|
    else if IsWild(a) != IsWild(b) then !IsWild(a)
    else k >= j
  }

  ghost predicate Prevails(ls: seq<Line>, labels: seq<string>, k: nat) {
    && k < |ls| && Covers(ls[k].text, labels)
    && forall j | 0 <= j < |ls| && Covers(ls[j].text, labels) :: Precedes(ls, k, j)
  }

  /** The suffix of the prevailing line: its labels, for an exception without the
      first; private as its section is, save for a line of one plain label. */
  function SuffixBy(l: Line): Suffix {
    var n := |LabelsOf(l.text)|;
    if IsException(l.text) then Suffix(n - 1, l.isPrivate)
    else Suffix(n, l.isPrivate && (IsWild(l.text) || n > 1))
  }

  // ---- Lines and rules

  function Parsed(l: Line): Rule {
    ParseRule(l.text, l.isPrivate)
  }

  lemma Mark(text: string)
    ensures StartsWith(text, "!") == IsException(text)
    ensures StartsWith(text, "*.") <==> |text| > 1 && text[0] == '*' && text[1] == '.'
  {
    if |text| >= 1 {
      assert text[..1] == [text[0]];
    }
    if |text| >= 2 {
      assert text[..2] == [text[0], text[1]];
    }
  }

  lemma {:induction false} StarLabels(text: string)
    requires |text| > 1 && text[0] == '*' && text[1] == '.'
    ensures Split(text, '.') == ["*"] + Split(text[2..], '.')
  {
    assert text == "*" + "." + text[2..];
    LabelsOfPair("*", text[2..]);
  }

  lemma {:induction false} LoneStar(text: string)
    requires Split(text, '.')[0] == "*"
    ensures text == "*" || (|text| > 1 && text[0] == '*' && text[1] == '.')
  {
    if text != "" && text[0] != '.' {
      var rest := Split(text[1..], '.');
      assert ([text[0]] + rest[0])[0] == '*' && |rest[0]| == 0;
      assert |text| == 1 ==> text == [text[0]];
    }
  }

  /** A line and its parsed rule say the same. */
  lemma ParsedAlike(l: Line)
    requires l.text != "" && IsSound(l.text)
    ensures Pattern(Parsed(l)) == LabelsOf(l.text) && IsWellFormed(Parsed(l))
    ensures Parsed(l).kind.Exception? == IsException(l.text)
    ensures Parsed(l).kind.Wildcard? == (IsWild(l.text) && !IsException(l.text))
    ensures Parsed(l).isPrivate == l.isPrivate
  {
    hide Split;
    Mark(l.text);
    var p := LabelsOf(l.text);
    if !IsException(l.text) {
      if IsWild(l.text) {
        LoneStar(l.text);
        LoneStarSplits();
      }
      if StartsWith(l.text, "*.") {
        StarLabels(l.text);
        assert p[1..] == Split(l.text[2..], '.');
        assert forall k | 0 <= k < |p| - 1 :: p[1..][k] == p[k + 1];
      }
    }
  }

  lemma LoneStarSplits()
    ensures |Split("*", '.')| == 1
  {
    LabelsOfOne("*");
  }

  lemma {:induction false} SectionParsed(texts: seq<string>, isPrivate: bool)
    ensures |SectionRules(texts, isPrivate)| == |SectionLines(texts, isPrivate)|
    ensures forall k | 0 <= k < |SectionLines(texts, isPrivate)| ::
      SectionLines(texts, isPrivate)[k].text != "" && SectionRules(texts, isPrivate)[k] == Parsed(SectionLines(texts, isPrivate)[k])
  {
    hide ParseRule;
    if texts != [] {
      SectionParsed(texts[1..], isPrivate);
    }
  }

  lemma AllParsed(icann: seq<string>, private_: seq<string>)
    ensures var ls, rs := Lines(icann, private_), ListRules(icann, private_);
      |rs| == |ls| && forall k | 0 <= k < |ls| :: ls[k].text != "" && rs[k] == Parsed(ls[k])
  {
    hide SectionRules, SectionLines, Parsed;
    SectionParsed(icann, false);
    SectionParsed(private_, true);
  }

  /** `rs` are the rules of the lines. */
  ghost predicate AreParsed(rs: seq<Rule>, ls: seq<Line>) {
    |rs| == |ls| && forall k | 0 <= k < |ls| :: IsAlike(rs[k], ls[k])
  }

  predicate IsAlike(r: Rule, l: Line) {
    && Pattern(r) == LabelsOf(l.text) && r.kind.Exception? == IsException(l.text) && r.isPrivate == l.isPrivate
    && IsWellFormed(r) && r.kind.Wildcard? == (IsWild(l.text) && !IsException(l.text)) && IsSound(l.text)
  }

  lemma RulesParsed(icann: seq<string>, private_: seq<string>)
    requires AreSound(Lines(icann, private_))
    ensures AreParsed(ListRules(icann, private_), Lines(icann, private_))
    ensures AreWellFormed(ListRules(icann, private_))
  {
    AllParsed(icann, private_);
    var ls, rs := Lines(icann, private_), ListRules(icann, private_);
    hide IsWellFormed, Pattern, LabelsOf, IsException, IsWild, Parsed, Lines, ListRules, IsSound;
    forall k | 0 <= k < |ls| ensures IsAlike(rs[k], ls[k]) && IsWellFormed(rs[k]) {
      ParsedAlike(ls[k]);
    }
  }

  lemma CoversAlike(r: Rule, l: Line, labels: seq<string>)
    requires IsAlike(r, l)
    ensures Matches(r, labels) == Covers(l.text, labels)
    ensures l.text != "" ==> SuffixLength(r) == SuffixBy(l).length
    ensures (r.isPrivate && !IsShort(r)) == SuffixBy(l).isPrivate
  {
    hide Pattern, LabelsOf;
  }

  lemma PrecedesAlike(rs: seq<Rule>, ls: seq<Line>, k: nat, j: nat)
    requires AreParsed(rs, ls) && k < |ls| && j < |ls|
    ensures GoesBefore(rs, k, j) == Precedes(ls, k, j)
  {
    hide Pattern, LabelsOf, IsWellFormed;
    assert IsAlike(rs[k], ls[k]) && IsAlike(rs[j], ls[j]);
    ExceptionPlain(ls[k].text);
    ExceptionPlain(ls[j].text);
  }

  lemma ExceptionPlain(text: string)
    requires IsSound(text)
    ensures IsException(text) ==> !IsWild(text)
  {
    hide LabelsOf;
  }

  lemma PrevailsAlike(rs: seq<Rule>, ls: seq<Line>, labels: seq<string>, k: nat)
    requires AreParsed(rs, ls)
    ensures IsPrevailing(rs, labels, k) <==> Prevails(ls, labels, k)
  {
    hide GoesBefore, Precedes, Matches, Covers, IsAlike;
    forall j | 0 <= j < |ls| ensures Matches(rs[j], labels) == Covers(ls[j].text, labels) {
      CoversAlike(rs[j], ls[j], labels);
    }
    if k < |ls| {
      forall j | 0 <= j < |ls| ensures GoesBefore(rs, k, j) == Precedes(ls, k, j) {
        PrecedesAlike(rs, ls, k, j);
      }
    }
  }

  // ---- Main results

  /** The suffix and the flag computed from the list's texts are those of the
      prevailing line. */
  lemma PrevailingLine(icann: seq<string>, private_: seq<string>, labels: seq<string>, k: nat)
    requires AreSound(Lines(icann, private_)) && AreLabels(labels) && Prevails(Lines(icann, private_), labels, k)
    ensures PublicSuffix(Loaded(ListRules(icann, private_)), labels) == SuffixBy(Lines(icann, private_)[k])
  {
    var ls, rs := Lines(icann, private_), ListRules(icann, private_);
    hide Lines, ListRules, Precedes, Covers, Loaded, PublicSuffix, SuffixLength, SuffixBy, IsAlike, AreWellFormed;
    RulesParsed(icann, private_);
    PrevailsAlike(rs, ls, labels, k);
    PrevailingSuffix(rs, labels, k);
    CoversAlike(rs[k], ls[k], labels);
    AllParsed(icann, private_);
  }

  lemma NoLine(icann: seq<string>, private_: seq<string>, labels: seq<string>)
    requires AreSound(Lines(icann, private_)) && AreLabels(labels)
    requires forall k | 0 <= k < |Lines(icann, private_)| :: !Covers(Lines(icann, private_)[k].text, labels)
    ensures PublicSuffix(Loaded(ListRules(icann, private_)), labels) == Suffix(1, false)
  {
    var ls, rs := Lines(icann, private_), ListRules(icann, private_);
    hide Lines, ListRules, Covers, Matches, Loaded, PublicSuffix, IsAlike, AreWellFormed;
    RulesParsed(icann, private_);
    forall k | 0 <= k < |rs| ensures !Matches(rs[k], labels) {
      CoversAlike(rs[k], ls[k], labels);
    }
    DefaultSuffix(rs, labels);
  }

  /** What the list says the suffix is: that of a prevailing line, or the last
      label when no line matches. */
  ghost predicate IsSuffix(ls: seq<Line>, labels: seq<string>, length: nat) {
    || (exists k: nat :: Prevails(ls, labels, k) && length == SuffixBy(ls[k]).length)
    || (length == 1 && forall k | 0 <= k < |ls| :: !Covers(ls[k].text, labels))
  }

  /** The suffix is the list's, and there is only one. */
  lemma SuffixIffLine(icann: seq<string>, private_: seq<string>, labels: seq<string>, length: nat)
    requires AreSound(Lines(icann, private_)) && AreLabels(labels)
    ensures IsSuffix(Lines(icann, private_), labels, length)
       <==> PublicSuffix(Loaded(ListRules(icann, private_)), labels).length == length
  {
    var ls, rs := Lines(icann, private_), ListRules(icann, private_);
    hide Lines, ListRules, Covers, Matches, Loaded, PublicSuffix, IsAlike, AreWellFormed, Precedes, IsPrevailing, SuffixBy;
    RulesParsed(icann, private_);
    if forall k | 0 <= k < |ls| :: !Covers(ls[k].text, labels) {
      NoLine(icann, private_, labels);
      forall k: nat | Prevails(ls, labels, k) ensures false {
        PrevailingCovers(ls, labels, k);
      }
    } else {
      var k := SomePrevails(rs, ls, labels);
      forall j: nat | Prevails(ls, labels, j)
        ensures PublicSuffix(Loaded(rs), labels) == SuffixBy(ls[j])
      {
        PrevailingLine(icann, private_, labels, j);
      }
    }
  }

  lemma PrevailingCovers(ls: seq<Line>, labels: seq<string>, k: nat)
    requires Prevails(ls, labels, k)
    ensures k < |ls| && Covers(ls[k].text, labels)
  {
  }

  lemma SomePrevails(rs: seq<Rule>, ls: seq<Line>, labels: seq<string>) returns (k: nat)
    requires AreParsed(rs, ls) && exists j :: 0 <= j < |ls| && Covers(ls[j].text, labels)
    ensures Prevails(ls, labels, k)
  {
    hide Covers, Matches, GoesBefore, IsAlike, Prevails;
    var found := PrevailingAmong(rs, labels, |rs|);
    forall j | 0 <= j < |ls| ensures Matches(rs[j], labels) == Covers(ls[j].text, labels) {
      CoversAlike(rs[j], ls[j], labels);
    }
    k := found.value;
    PrevailsAlike(rs, ls, labels, k);
  }

  /** Loading both sections and running the loop gives what the list's texts say
      for a host. */
  method SuffixOf(icann: seq<string>, private_: seq<string>, labels: seq<string>) returns (s: Suffix)
    requires AreSound(Lines(icann, private_)) && AreLabels(labels)
    ensures IsSuffix(Lines(icann, private_), labels, s.length)
    ensures forall k: nat | Prevails(Lines(icann, private_), labels, k) :: s == SuffixBy(Lines(icann, private_)[k])
    ensures (forall k | 0 <= k < |Lines(icann, private_)| :: !Covers(Lines(icann, private_)[k].text, labels)) ==>
      s == Suffix(1, false)
  {
    hide Lines, Covers, AreSound, Precedes, Loaded, ListRules, PublicSuffix, SuffixBy, IsSuffix;
    var t := LoadSections(icann, private_);
    s := PublicSuffixOf(t, labels);
    SuffixIffLine(icann, private_, labels, s.length);
    forall k: nat | Prevails(Lines(icann, private_), labels, k) ensures s == SuffixBy(Lines(icann, private_)[k]) {
      PrevailingLine(icann, private_, labels, k);
    }
    if forall k | 0 <= k < |Lines(icann, private_)| :: !Covers(Lines(icann, private_)[k].text, labels) {
      NoLine(icann, private_, labels);
    }
  }
}
