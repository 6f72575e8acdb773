/** Which site a host belongs to (`extension/site-match.js`): the suffix loop
    over the loaded rules, and the Public Suffix List algorithm it implements. */
module SiteMatch {
  import opened Strings
  import opened Hosts

  // ---- Rules

  datatype Kind = Exact | Wildcard | Exception

  /** A rule: its name without `!` or `*.`, and its section. */
  datatype Rule = Rule(kind: Kind, name: string, isPrivate: bool)

  function ParseRule(text: string, isPrivate: bool): Rule {
    if StartsWith(text, "!") then Rule(Exception, text[1..], isPrivate)
    else if StartsWith(text, "*.") then Rule(Wildcard, text[2..], isPrivate)
    else Rule(Exact, text, isPrivate)
  }

  /** The rules of one section, in order. */
  function SectionRules(texts: seq<string>, isPrivate: bool): seq<Rule> {
    if texts == [] then []
    else (if texts[0] == "" then [] else [ParseRule(texts[0], isPrivate)]) + SectionRules(texts[1..], isPrivate)
  }

  function ListRules(icann: seq<string>, private_: seq<string>): seq<Rule> {
    SectionRules(icann, false) + SectionRules(private_, true)
  }

  datatype Tables = Tables(rules: map<string, bool>, wildcards: map<string, bool>, exceptions: map<string, bool>)

  function Add(t: Tables, r: Rule): Tables {
    match r.kind
    case Exact => t.(rules := t.rules[r.name := r.isPrivate])
    case Wildcard => t.(wildcards := t.wildcards[r.name := r.isPrivate])
    case Exception => t.(exceptions := t.exceptions[r.name := r.isPrivate])
  }

  /** The maps after all rules; a later rule of the same name replaces the flag. */
  function Loaded(rs: seq<Rule>): Tables {
    if rs == [] then Tables(map[], map[], map[]) else Add(Loaded(rs[..|rs| - 1]), rs[|rs| - 1])
  }

  lemma {:induction false} LoadedOne(rs: seq<Rule>, r: Rule)
    ensures Loaded(rs + [r]) == Add(Loaded(rs), r)
  {
    assert (rs + [r])[..|rs|] == rs;
  }

  /** One section of rules into the maps, after those of `done`. */
  method LoadSection(before: Tables, texts: seq<string>, isPrivate: bool, ghost done: seq<Rule>) returns (t: Tables)
    requires before == Loaded(done)
    ensures t == Loaded(done + SectionRules(texts, isPrivate))
  {
    hide ParseRule, SectionRules, Loaded, Add;
    t := before;
    ghost var added: seq<Rule> := [];
    assert done + added == done && texts[0..] == texts && added + SectionRules(texts, isPrivate) == SectionRules(texts, isPrivate);
    for i := 0 to |texts|
      invariant t == Loaded(done + added)
      invariant added + SectionRules(texts[i..], isPrivate) == SectionRules(texts, isPrivate)
    {
      SectionStep(texts, i, isPrivate);
      if texts[i] != "" {
        var r := ParseRule(texts[i], isPrivate);
        LoadedOne(done + added, r);
        assert done + added + [r] == done + (added + [r]);
        t := Add(t, r);
        assert added + [r] + SectionRules(texts[i + 1..], isPrivate) == added + SectionRules(texts[i..], isPrivate);
        added := added + [r];
      }
    }
    assert texts[|texts|..] == [] && added + [] == added;
    NoRules(isPrivate);
  }

  lemma {:induction false} NoRules(isPrivate: bool)
    ensures SectionRules([], isPrivate) == []
  {
  }

  lemma {:induction false} SectionStep(texts: seq<string>, i: nat, isPrivate: bool)
    requires i < |texts|
    ensures SectionRules(texts[i..], isPrivate) ==
      (if texts[i] == "" then [] else [ParseRule(texts[i], isPrivate)]) + SectionRules(texts[i + 1..], isPrivate)
  {
    assert texts[i..][0] == texts[i] && texts[i..][1..] == texts[i + 1..];
    hide ParseRule;
  }

  method LoadSections(icann: seq<string>, private_: seq<string>) returns (t: Tables)
    ensures t == Loaded(ListRules(icann, private_))
  {
    t := LoadSection(Tables(map[], map[], map[]), icann, false, []);
    assert [] + SectionRules(icann, false) == SectionRules(icann, false);
    t := LoadSection(t, private_, true, SectionRules(icann, false));
  }

  /** The flag of the last rule of a kind and name. */
  function Lookup(rs: seq<Rule>, kind: Kind, name: string): Option<bool> {
    if rs == [] then None
    else
      var last := rs[|rs| - 1];
      if last.kind == kind && last.name == name then Some(last.isPrivate) else Lookup(rs[..|rs| - 1], kind, name)
  }

  function TableOf(t: Tables, kind: Kind): map<string, bool> {
    match kind
    case Exact => t.rules
    case Wildcard => t.wildcards
    case Exception => t.exceptions
  }

  function Get(m: map<string, bool>, key: string): Option<bool> {
    if key in m then Some(m[key]) else None
  }

  lemma {:induction false} LoadedLookup(rs: seq<Rule>, kind: Kind, name: string)
    ensures Get(TableOf(Loaded(rs), kind), name) == Lookup(rs, kind, name)
  {
    if rs != [] {
      LoadedLookup(rs[..|rs| - 1], kind, name);
    }
  }

  // ---- The suffix loop

  datatype Suffix = Suffix(length: nat, isPrivate: bool)

  /** The loop from label `i` on. */
  function Scan(t: Tables, labels: seq<string>, i: nat, best: Suffix): Suffix
    requires i <= |labels|
    decreases |labels| - i
  {
    if i == |labels| then best else
    var candidate := Join(labels[i..], '.');
    var n := |labels| - i;
    if candidate in t.exceptions then Suffix(n - 1, t.exceptions[candidate]) else
    var exact := if candidate in t.rules && n > best.length then Suffix(n, t.rules[candidate]) else best;
    var next := if i > 0 && candidate in t.wildcards && n + 1 > exact.length
      then Suffix(n + 1, t.wildcards[candidate]) else exact;
    Scan(t, labels, i + 1, next)
  }

  function PublicSuffix(t: Tables, labels: seq<string>): Suffix {
    Scan(t, labels, 0, Suffix(1, false))
  }

  method PublicSuffixOf(t: Tables, labels: seq<string>) returns (best: Suffix)
    ensures best == PublicSuffix(t, labels)
  {
    best := Suffix(1, false);
    for i := 0 to |labels|
      invariant Scan(t, labels, i, best) == PublicSuffix(t, labels)
    {
      var candidate := Join(labels[i..], '.');
      if candidate in t.exceptions {
        return Suffix(|labels| - i - 1, t.exceptions[candidate]);
      }
      if candidate in t.rules && |labels| - i > best.length {
        best := Suffix(|labels| - i, t.rules[candidate]);
      }
      if i > 0 && candidate in t.wildcards && |labels| - i + 1 > best.length {
        best := Suffix(|labels| - i + 1, t.wildcards[candidate]);
      }
    }
  }

  // ---- The Public Suffix List algorithm

  /** The labels of a rule as the list has it, the wildcard as `*`. */
  function Pattern(r: Rule): (p: seq<string>)
    ensures p != []
  {
    (if r.kind.Wildcard? then ["*"] else []) + Split(r.name, '.')
  }

  /** A host matches a rule when, from the right, every label of the rule is the
      host's or `*`. */
  predicate Matches(r: Rule, labels: seq<string>) {
    var p := Pattern(r);
    && |p| <= |labels|
    && forall k | 0 <= k < |p| :: p[k] == "*" || p[k] == labels[|labels| - |p| + k]
  }

  /** Rule `k` goes before rule `j`: exceptions first, then the one with more
      labels, an exact one before a wildcard, the later of two alike. */
  predicate GoesBefore(rs: seq<Rule>, k: nat, j: nat)
    requires k < |rs| && j < |rs|
  {
    var a, b := rs[k], rs[j];
    if a.kind.Exception? != b.kind.Exception? then a.kind.Exception?
    else if |Pattern(a)| != |Pattern(b)| then |Pattern(a)| > |Pattern(b)|
    else if a.kind != b.kind then a.kind.Exact?
    else k >= j
  }

  ghost predicate IsPrevailing(rs: seq<Rule>, labels: seq<string>, k: nat) {
    && k < |rs| && Matches(rs[k], labels)
    && forall j | 0 <= j < |rs| && Matches(rs[j], labels) :: GoesBefore(rs, k, j)
  }

  /** An exception's suffix drops its leftmost label. */
  function SuffixLength(r: Rule): nat {
    if r.kind.Exception? then |Pattern(r)| - 1 else |Pattern(r)|
  }

  /** `*` stands only where the list allows it, and exceptions have a suffix. */
  predicate IsWellFormed(r: Rule) {
    && (forall i | 0 <= i < |Split(r.name, '.')| :: Split(r.name, '.')[i] != "*")
    && (r.kind.Exception? ==> |Split(r.name, '.')| >= 2)
  }

  predicate AreWellFormed(rs: seq<Rule>) {
    forall k | 0 <= k < |rs| :: IsWellFormed(rs[k])
  }

  // ---- The loop finds the prevailing rule

  /** The flag of the rule of a kind that is the labels from `i` on. */
  function Hit(rs: seq<Rule>, kind: Kind, labels: seq<string>, i: nat): Option<bool>
    requires i < |labels|
  {
    if kind.Wildcard? && i == 0 then None else Lookup(rs, kind, Join(labels[i..], '.'))
  }

  lemma ScanStep(rs: seq<Rule>, labels: seq<string>, i: nat, best: Suffix)
    requires i < |labels|
    ensures var n := |labels| - i;
      var e, x, w := Hit(rs, Exception, labels, i), Hit(rs, Exact, labels, i), Hit(rs, Wildcard, labels, i);
      var exact := if x.Some? && n > best.length then Suffix(n, x.value) else best;
      var next := if w.Some? && n + 1 > exact.length then Suffix(n + 1, w.value) else exact;
      Scan(Loaded(rs), labels, i, best) ==
        if e.Some? then Suffix(n - 1, e.value) else Scan(Loaded(rs), labels, i + 1, next)
  {
    var candidate := Join(labels[i..], '.');
    LoadedLookup(rs, Exact, candidate);
    LoadedLookup(rs, Wildcard, candidate);
    LoadedLookup(rs, Exception, candidate);
    hide Loaded, Lookup, Join;
  }

  /** The first exception ends the loop. */
  lemma {:induction false} ScanException(rs: seq<Rule>, labels: seq<string>, i: nat, best: Suffix, j: nat)
    requires i <= j < |labels| && Hit(rs, Exception, labels, j).Some?
    requires forall k | i <= k < j :: Hit(rs, Exception, labels, k).None?
    ensures Scan(Loaded(rs), labels, i, best) == Suffix(|labels| - j - 1, Hit(rs, Exception, labels, j).value)
    decreases j - i
  {
    hide Hit, Scan, Loaded;
    ScanStep(rs, labels, i, best);
    if i < j {
      var n := |labels| - i;
      var x, w := Hit(rs, Exact, labels, i), Hit(rs, Wildcard, labels, i);
      var exact := if x.Some? && n > best.length then Suffix(n, x.value) else best;
      ScanException(rs, labels, i + 1, if w.Some? && n + 1 > exact.length then Suffix(n + 1, w.value) else exact, j);
    }
  }

  predicate NoException(rs: seq<Rule>, labels: seq<string>) {
    forall k | 0 <= k < |labels| :: Hit(rs, Exception, labels, k).None?
  }

  /** What was found first is kept: later rules have no more labels. */
  lemma {:induction false} ScanKeeps(rs: seq<Rule>, labels: seq<string>, i: nat, best: Suffix)
    requires i <= |labels| && NoException(rs, labels) && best.length >= |labels| - i + 1
    ensures Scan(Loaded(rs), labels, i, best) == best
    decreases |labels| - i
  {
    if i < |labels| {
      hide Hit, Scan, Loaded;
      ScanStep(rs, labels, i, best);
      ScanKeeps(rs, labels, i + 1, best);
    }
  }

  /** An exact rule of two labels or more, with none before it. */
  lemma {:induction false} ScanExact(rs: seq<Rule>, labels: seq<string>, i: nat, j: nat)
    requires i <= j && j + 1 < |labels| && NoException(rs, labels) && Hit(rs, Exact, labels, j).Some?
    requires forall k | i <= k < j :: Hit(rs, Exact, labels, k).None?
    requires forall k | i <= k <= j :: Hit(rs, Wildcard, labels, k).None?
    ensures Scan(Loaded(rs), labels, i, Suffix(1, false)) == Suffix(|labels| - j, Hit(rs, Exact, labels, j).value)
    decreases j - i
  {
    hide Hit, Scan, Loaded;
    ScanStep(rs, labels, i, Suffix(1, false));
    if i < j {
      ScanExact(rs, labels, i + 1, j);
    } else {
      ScanKeeps(rs, labels, i + 1, Suffix(|labels| - j, Hit(rs, Exact, labels, j).value));
    }
  }

  /** A wildcard rule, with none before it. */
  lemma {:induction false} ScanWildcard(rs: seq<Rule>, labels: seq<string>, i: nat, j: nat)
    requires i <= j < |labels| && NoException(rs, labels) && Hit(rs, Wildcard, labels, j).Some?
    requires forall k | i <= k < j :: Hit(rs, Exact, labels, k).None?
    requires forall k | i <= k < j :: Hit(rs, Wildcard, labels, k).None?
    ensures Scan(Loaded(rs), labels, i, Suffix(1, false)) == Suffix(|labels| - j + 1, Hit(rs, Wildcard, labels, j).value)
    decreases j - i
  {
    hide Hit, Scan, Loaded;
    ScanStep(rs, labels, i, Suffix(1, false));
    if i < j {
      ScanWildcard(rs, labels, i + 1, j);
    } else {
      ScanKeeps(rs, labels, i + 1, Suffix(|labels| - j + 1, Hit(rs, Wildcard, labels, j).value));
    }
  }

  /** No rule of two labels or more. */
  lemma {:induction false} ScanNothing(rs: seq<Rule>, labels: seq<string>, i: nat)
    requires i <= |labels| && NoException(rs, labels)
    requires forall k | i <= k < |labels| - 1 :: Hit(rs, Exact, labels, k).None?
    requires forall k | i <= k < |labels| :: Hit(rs, Wildcard, labels, k).None?
    ensures Scan(Loaded(rs), labels, i, Suffix(1, false)) == Suffix(1, false)
    decreases |labels| - i
  {
    if i < |labels| {
      hide Hit, Scan, Loaded;
      ScanStep(rs, labels, i, Suffix(1, false));
      ScanNothing(rs, labels, i + 1);
    }
  }

  // ---- Names and labels

  /** Where a rule of `c` name labels stands at the end of a host. */
  predicate EndsWith(labels: seq<string>, name: string) {
    |Split(name, '.')| <= |labels| && labels[|labels| - |Split(name, '.')|..] == Split(name, '.')
  }

  lemma {:induction false} EndsWithJoin(labels: seq<string>, name: string, i: nat)
    requires AreLabels(labels) && i < |labels|
    ensures Join(labels[i..], '.') == name <==> EndsWith(labels, name) && i == |labels| - |Split(name, '.')|
  {
    JoinLabels(name);
    assert AreLabels(labels[i..]);
    LabelsJoin(labels[i..]);
  }

  lemma MatchesIs(r: Rule, labels: seq<string>)
    requires IsWellFormed(r)
    ensures Matches(r, labels) <==>
      EndsWith(labels, r.name) && (r.kind.Wildcard? ==> |Split(r.name, '.')| < |labels|)
  {
    var p, l := Pattern(r), Split(r.name, '.');
    var d := |p| - |l|;
    hide Split;
    if |p| <= |labels| {
      var tail := labels[|labels| - |l|..];
      if Matches(r, labels) {
        forall k | 0 <= k < |l| ensures tail[k] == l[k] {
          assert p[d + k] == l[k] != "*";
          assert p[d + k] == labels[|labels| - |p| + (d + k)];
        }
        assert tail == l;
      }
      if tail == l {
        forall k | 0 <= k < |p| ensures p[k] == "*" || p[k] == labels[|labels| - |p| + k] {
          if k >= d {
            assert p[k] == tail[k - d];
          }
        }
      }
    }
  }

  lemma {:induction false} LookupLast(rs: seq<Rule>, kind: Kind, name: string) returns (k: nat)
    requires Lookup(rs, kind, name).Some?
    ensures k < |rs| && rs[k] == Rule(kind, name, Lookup(rs, kind, name).value)
    ensures forall j | k < j < |rs| :: rs[j].kind != kind || rs[j].name != name
  {
    var last := rs[|rs| - 1];
    if last.kind == kind && last.name == name {
      k := |rs| - 1;
    } else {
      k := LookupLast(rs[..|rs| - 1], kind, name);
    }
  }

  lemma {:induction false} LookupHas(rs: seq<Rule>, k: nat)
    requires k < |rs|
    ensures Lookup(rs, rs[k].kind, rs[k].name).Some?
  {
    if k < |rs| - 1 {
      LookupHas(rs[..|rs| - 1], k);
    }
  }

  /** A hit is a rule that matches; it is the last of its name. */
  lemma HitRule(rs: seq<Rule>, kind: Kind, labels: seq<string>, i: nat) returns (k: nat)
    requires AreWellFormed(rs) && AreLabels(labels) && i < |labels| && Hit(rs, kind, labels, i).Some?
    ensures k < |rs| && Matches(rs[k], labels) && rs[k].kind == kind
    ensures |Split(rs[k].name, '.')| == |labels| - i && rs[k].isPrivate == Hit(rs, kind, labels, i).value
    ensures forall j | k < j < |rs| :: rs[j].kind != kind || rs[j].name != rs[k].name
  {
    var name := Join(labels[i..], '.');
    k := LookupLast(rs, kind, name);
    EndsWithJoin(labels, name, i);
    MatchesIs(rs[k], labels);
  }

  /** A rule that matches is a hit. */
  lemma RuleHits(rs: seq<Rule>, labels: seq<string>, k: nat)
    requires AreWellFormed(rs) && AreLabels(labels) && k < |rs| && Matches(rs[k], labels)
    ensures var c := |Split(rs[k].name, '.')|;
      0 < c <= |labels| && Hit(rs, rs[k].kind, labels, |labels| - c).Some?
  {
    MatchesIs(rs[k], labels);
    EndsWithJoin(labels, rs[k].name, |labels| - |Split(rs[k].name, '.')|);
    LookupHas(rs, k);
  }

  predicate IsShort(r: Rule) {
    r.kind.Exact? && |Pattern(r)| == 1
  }

  /** What goes before the prevailing rule is not there. */
  lemma NoHitBefore(rs: seq<Rule>, labels: seq<string>, k: nat, kind: Kind, i: nat)
    requires AreWellFormed(rs) && AreLabels(labels) && IsPrevailing(rs, labels, k) && i < |labels|
    requires rs[k].kind.Exception? ==> kind.Exception?
    requires var n := |labels| - i + (if kind.Wildcard? then 1 else 0);
      || (kind.Exception? && !rs[k].kind.Exception?)
      || n > |Pattern(rs[k])|
      || (n == |Pattern(rs[k])| && kind.Exact? && rs[k].kind.Wildcard?)
    ensures Hit(rs, kind, labels, i).None?
  {
    hide Matches, Hit;
    if Hit(rs, kind, labels, i).Some? {
      var j := HitRule(rs, kind, labels, i);
      assert false;
    }
  }

  lemma SameName(a: Rule, b: Rule, labels: seq<string>)
    requires IsWellFormed(a) && IsWellFormed(b) && Matches(a, labels) && Matches(b, labels)
    requires |Split(a.name, '.')| == |Split(b.name, '.')|
    ensures a.name == b.name
  {
    hide Matches, Split, IsWellFormed;
    MatchesIs(a, labels);
    MatchesIs(b, labels);
    JoinLabels(a.name);
    JoinLabels(b.name);
  }

  lemma PrevailingIsLast(rs: seq<Rule>, labels: seq<string>, k: nat, j: nat)
    requires IsPrevailing(rs, labels, k) && j < |rs| && Matches(rs[j], labels)
    requires rs[j].kind == rs[k].kind && rs[j].name == rs[k].name
    ensures k >= j
  {
    hide Matches, Split;
    assert GoesBefore(rs, k, j);
  }

  /** The hit of the prevailing rule carries its flag. */
  lemma PrevailingHit(rs: seq<Rule>, labels: seq<string>, k: nat)
    requires AreWellFormed(rs) && AreLabels(labels) && IsPrevailing(rs, labels, k)
    ensures var c := |Split(rs[k].name, '.')|;
      0 < c <= |labels| && Hit(rs, rs[k].kind, labels, |labels| - c) == Some(rs[k].isPrivate)
  {
    hide Matches, Hit, Split, GoesBefore, IsWellFormed, AreLabels;
    RuleHits(rs, labels, k);
    var c := |Split(rs[k].name, '.')|;
    var j := HitRule(rs, rs[k].kind, labels, |labels| - c);
    SameName(rs[j], rs[k], labels);
    PrevailingIsLast(rs, labels, k, j);
  }

  /** The suffix is the prevailing rule's, and so is the flag, except that a
      one-label rule never sets it. */
  lemma {:induction false} PrevailingSuffix(rs: seq<Rule>, labels: seq<string>, k: nat)
    requires AreWellFormed(rs) && AreLabels(labels) && IsPrevailing(rs, labels, k)
    ensures PublicSuffix(Loaded(rs), labels)
         == Suffix(SuffixLength(rs[k]), rs[k].isPrivate && !IsShort(rs[k]))
  {
    PrevailingHit(rs, labels, k);
    var r := rs[k];
    var c := |Split(r.name, '.')|;
    var j := |labels| - c;
    hide Hit, Scan, Loaded, Split, IsPrevailing;
    forall i | 0 <= i < |labels| && (r.kind.Exception? ==> i < j) ensures Hit(rs, Exception, labels, i).None? {
      NoHitBefore(rs, labels, k, Exception, i);
    }
    if r.kind.Exception? {
      ScanException(rs, labels, 0, Suffix(1, false), j);
    } else {
      forall i | 0 <= i < j ensures Hit(rs, Exact, labels, i).None? {
        NoHitBefore(rs, labels, k, Exact, i);
      }
      forall i | 0 <= i < j || (i == j && r.kind.Exact?) ensures Hit(rs, Wildcard, labels, i).None? {
        NoHitBefore(rs, labels, k, Wildcard, i);
      }
      if r.kind.Wildcard? {
        ScanWildcard(rs, labels, 0, j);
      } else if c == 1 {
        ScanNothing(rs, labels, 0);
      } else {
        ScanExact(rs, labels, 0, j);
      }
    }
  }

  /** Without a matching rule the suffix is the last label. */
  lemma {:induction false} DefaultSuffix(rs: seq<Rule>, labels: seq<string>)
    requires AreWellFormed(rs) && AreLabels(labels)
    requires forall k | 0 <= k < |rs| :: !Matches(rs[k], labels)
    ensures PublicSuffix(Loaded(rs), labels) == Suffix(1, false)
  {
    forall kind: Kind, i | 0 <= i < |labels| ensures Hit(rs, kind, labels, i).None? {
      if Hit(rs, kind, labels, i).Some? {
        var k := HitRule(rs, kind, labels, i);
        assert false;
      }
    }
    hide Hit, Scan, Loaded;
    ScanNothing(rs, labels, 0);
  }

  lemma {:induction false} PrevailingAmong(rs: seq<Rule>, labels: seq<string>, n: nat) returns (k: Option<nat>)
    requires n <= |rs|
    ensures k.None? ==> forall j | 0 <= j < n :: !Matches(rs[j], labels)
    ensures k.Some? ==> k.value < n && Matches(rs[k.value], labels)
    ensures k.Some? ==> forall j | 0 <= j < n && Matches(rs[j], labels) :: GoesBefore(rs, k.value, j)
  {
    hide Matches, Pattern;
    k := None;
    if n > 0 {
      k := PrevailingAmong(rs, labels, n - 1);
      if Matches(rs[n - 1], labels) && (k.None? || !GoesBefore(rs, k.value, n - 1)) {
        k := Some(n - 1);
      }
    }
  }

  /** What the Public Suffix List algorithm says: the prevailing rule's suffix,
      or the last label. */
  ghost predicate IsListed(rs: seq<Rule>, labels: seq<string>, length: nat) {
    || (exists k: nat :: IsPrevailing(rs, labels, k) && length == SuffixLength(rs[k]))
    || (length == 1 && forall k | 0 <= k < |rs| :: !Matches(rs[k], labels))
  }

  /** The loop computes the suffix of the Public Suffix List algorithm. */
  lemma {:induction false} SuffixIsListed(rs: seq<Rule>, labels: seq<string>, length: nat)
    requires AreWellFormed(rs) && AreLabels(labels)
    ensures IsListed(rs, labels, length) <==> PublicSuffix(Loaded(rs), labels).length == length
  {
    var k := PrevailingAmong(rs, labels, |rs|);
    hide Matches, Loaded, PublicSuffix, GoesBefore, SuffixLength;
    if k.None? {
      DefaultSuffix(rs, labels);
      forall j: nat | IsPrevailing(rs, labels, j) ensures false {
      }
    } else {
      assert IsPrevailing(rs, labels, k.value);
      forall j: nat | IsPrevailing(rs, labels, j) ensures PublicSuffix(Loaded(rs), labels).length == SuffixLength(rs[j]) {
        PrevailingSuffix(rs, labels, j);
      }
    }
  }

  /** The flag is the prevailing rule's unless that is a private one-label rule. */
  lemma {:induction false} FlagIsListedIff(rs: seq<Rule>, labels: seq<string>, k: nat)
    requires AreWellFormed(rs) && AreLabels(labels) && IsPrevailing(rs, labels, k)
    ensures PublicSuffix(Loaded(rs), labels).isPrivate == rs[k].isPrivate
       <==> !(IsShort(rs[k]) && rs[k].isPrivate)
  {
    PrevailingSuffix(rs, labels, k);
  }

  // ---- Registrable domains

  /** The last `n` labels. */
  function Last(labels: seq<string>, n: nat): seq<string>
    requires n <= |labels|
  {
    labels[|labels| - n..]
  }

  lemma MatchesLast(r: Rule, labels: seq<string>, n: nat)
    requires n <= |labels| && |Pattern(r)| <= n
    ensures Matches(r, Last(labels, n)) <==> Matches(r, labels)
  {
    hide Pattern;
    var p, tail := Pattern(r), Last(labels, n);
    forall k | 0 <= k < |p| ensures p[k] == tail[n - |p| + k] <==> p[k] == labels[|labels| - |p| + k] {
    }
  }

  /** A rule that matches the last labels matches them all, so the rule that
      prevails over all still does. */
  lemma PrevailingLast(rs: seq<Rule>, labels: seq<string>, n: nat, k: nat)
    requires IsPrevailing(rs, labels, k) && |Pattern(rs[k])| <= n <= |labels|
    ensures IsPrevailing(rs, Last(labels, n), k)
  {
    hide Pattern, Matches, Last, GoesBefore;
    MatchesLast(rs[k], labels, n);
    forall j | 0 <= j < |rs| && Matches(rs[j], Last(labels, n)) ensures GoesBefore(rs, k, j) {
      MatchesShort(rs[j], labels, n);
      MatchesLast(rs[j], labels, n);
    }
  }

  lemma MatchesShort(r: Rule, labels: seq<string>, n: nat)
    requires n <= |labels| && Matches(r, Last(labels, n))
    ensures |Pattern(r)| <= n
  {
  }

  lemma LabelsLast(labels: seq<string>, n: nat)
    requires n <= |labels| && AreLabels(labels)
    ensures AreLabels(Last(labels, n))
  {
  }

  lemma {:induction false} PrevailingFixed(rs: seq<Rule>, labels: seq<string>, n: nat, k: nat)
    requires AreWellFormed(rs) && AreLabels(labels) && IsPrevailing(rs, labels, k) && n <= |labels|
    requires n == PublicSuffix(Loaded(rs), labels).length + 1
    ensures PublicSuffix(Loaded(rs), Last(labels, n)) == PublicSuffix(Loaded(rs), labels)
  {
    hide Matches, Loaded, PublicSuffix, GoesBefore, Last, AreLabels, AreWellFormed, Pattern, IsPrevailing;
    assert k < |rs| by { PrevailingIn(rs, labels, k); }
    LabelsLast(labels, n);
    PrevailingSuffix(rs, labels, k);
    PrevailingLast(rs, labels, n, k);
    PrevailingSuffix(rs, Last(labels, n), k);
  }

  lemma PrevailingIn(rs: seq<Rule>, labels: seq<string>, k: nat)
    requires IsPrevailing(rs, labels, k)
    ensures k < |rs|
  {
  }

  lemma {:induction false} DefaultFixed(rs: seq<Rule>, labels: seq<string>, n: nat)
    requires AreWellFormed(rs) && AreLabels(labels) && n <= |labels|
    requires forall k | 0 <= k < |rs| :: !Matches(rs[k], labels)
    ensures PublicSuffix(Loaded(rs), Last(labels, n)) == PublicSuffix(Loaded(rs), labels)
  {
    hide *;
    LabelsLast(labels, n);
    DefaultSuffix(rs, labels);
    forall j | 0 <= j < |rs| ensures !Matches(rs[j], Last(labels, n)) {
      if Matches(rs[j], Last(labels, n)) {
        MatchesShort(rs[j], labels, n);
        MatchesLast(rs[j], labels, n);
      }
    }
    DefaultSuffix(rs, Last(labels, n));
  }

  /** A registrable domain is its own: the suffix and the flag of its labels are
      those of the host. */
  lemma {:induction false} DomainFixed(rs: seq<Rule>, labels: seq<string>)
    requires AreWellFormed(rs) && AreLabels(labels)
    requires PublicSuffix(Loaded(rs), labels).length < |labels|
    ensures var s := PublicSuffix(Loaded(rs), labels);
      PublicSuffix(Loaded(rs), Last(labels, s.length + 1)) == s
  {
    hide AreWellFormed, AreLabels, Matches, GoesBefore, Loaded, PublicSuffix, Last;
    var n := PublicSuffix(Loaded(rs), labels).length + 1;
    var k := PrevailingAmong(rs, labels, |rs|);
    if k.Some? {
      PrevailingFixed(rs, labels, n, k.value);
    } else {
      DefaultFixed(rs, labels, n);
    }
  }

  // ---- Sites

  /** `/^\d+(\.\d+){3}$/` */
  predicate IsAddress(labels: seq<string>) {
    |labels| == 4 && forall i | 0 <= i < 4 :: labels[i] != "" && AllChars(labels[i], IsDigit)
  }

  datatype Site = Site(domain: string, suffix: string, isPrivate: bool)

  /** `siteOf` from the host on. */
  function SiteOfHost(t: Tables, host: string): Option<Site> {
    var labels := Split(host, '.');
    if !IsHost(labels) || IsAddress(labels) then None else
    var s := PublicSuffix(t, labels);
    if |labels| <= s.length then None
    else Some(Site(Join(Last(labels, s.length + 1), '.'), Join(Last(labels, s.length), '.'), s.isPrivate))
  }

  lemma {:induction false} SuffixNotEmpty(rs: seq<Rule>, labels: seq<string>)
    requires AreWellFormed(rs) && AreLabels(labels)
    ensures PublicSuffix(Loaded(rs), labels).length >= 1
  {
    var k := PrevailingAmong(rs, labels, |rs|);
    hide Matches, Loaded, PublicSuffix, GoesBefore;
    if k.Some? {
      assert IsPrevailing(rs, labels, k.value) && IsWellFormed(rs[k.value]);
      PrevailingSuffix(rs, labels, k.value);
    } else {
      DefaultSuffix(rs, labels);
    }
  }

  lemma {:induction false} SiteParts(t: Tables, host: string)
    requires SiteOfHost(t, host).Some?
    ensures var all, site := Split(host, '.'), SiteOfHost(t, host).value;
      var s := PublicSuffix(t, all);
      && IsHost(all) && s.length < |all| && site.isPrivate == s.isPrivate
      && site.domain == Join(Last(all, s.length + 1), '.') && site.suffix == Join(Last(all, s.length), '.')
  {
    hide PublicSuffix, Split, Join, Last, IsHost, IsAddress;
  }

  lemma LastIs(labels: seq<string>, n: nat)
    requires 2 <= n <= |labels| && IsHost(labels) && AreLabels(labels)
    ensures |Last(labels, n)| == n && IsHost(Last(labels, n)) && AreLabels(Last(labels, n))
    ensures Last(Last(labels, n), n - 1) == Last(labels, n - 1)
  {
    hide IsHostLabel;
  }

  /** A site's domain has the host's last labels, whose suffix and flag are the
      site's. */
  lemma {:induction false} SiteLabels(rs: seq<Rule>, host: string)
    requires AreWellFormed(rs) && SiteOfHost(Loaded(rs), host).Some?
    ensures var site := SiteOfHost(Loaded(rs), host).value;
      var labels := Split(site.domain, '.');
      var s := PublicSuffix(Loaded(rs), labels);
      && IsHost(labels) && |labels| == s.length + 1 >= 2 && site.isPrivate == s.isPrivate
      && |labels| <= |Split(host, '.')| && labels == Last(Split(host, '.'), |labels|)
      && site.suffix == Join(Last(labels, s.length), '.')
  {
    hide *;
    var t, all := Loaded(rs), Split(host, '.');
    SiteParts(t, host);
    LabelsAre(host);
    var s := PublicSuffix(t, all);
    var labels := Last(all, s.length + 1);
    SuffixNotEmpty(rs, all);
    DomainFixed(rs, all);
    LastIs(all, s.length + 1);
    LabelsJoin(labels);
  }

  /** A host has a site exactly when it has two labels or more of small letters,
      digits and hyphens, is no IP address and is longer than its suffix. */
  lemma {:induction false} HasSiteIff(t: Tables, host: string)
    ensures SiteOfHost(t, host).Some? <==>
      var labels := Split(host, '.');
      && |labels| >= 2 && |labels| > PublicSuffix(t, labels).length
      && (forall i | 0 <= i < |labels| :: labels[i] != "" &&
            forall k | 0 <= k < |labels[i]| :: 'a' <= labels[i][k] <= 'z' || '0' <= labels[i][k] <= '9' || labels[i][k] == '-')
      && !(|labels| == 4 && forall i | 0 <= i < 4 :: forall k | 0 <= k < |labels[i]| :: '0' <= labels[i][k] <= '9')
  {
    hide PublicSuffix, Split, Join;
  }

  /** Read as a host, a site's domain is that site again, unless it reads as an
      IP address, which has none. */
  lemma {:induction false} HostFixed(rs: seq<Rule>, host: string)
    requires AreWellFormed(rs) && SiteOfHost(Loaded(rs), host).Some?
    ensures var site := SiteOfHost(Loaded(rs), host).value;
      SiteOfHost(Loaded(rs), site.domain) == if IsAddress(Split(site.domain, '.')) then None else Some(site)
  {
    SiteLabels(rs, host);
    var site := SiteOfHost(Loaded(rs), host).value;
    JoinLabels(site.domain);
    var labels := Split(site.domain, '.');
    assert Last(labels, |labels|) == labels;
    hide Loaded, PublicSuffix, Split;
  }

  /** `siteOf` */
  function SiteOf(t: Tables, value: string, punycode: Punycode): Option<Site> {
    SiteOfHost(t, HostFrom(value, punycode))
  }

  /** A site's domain names that site exactly when it is not an IP address and its
      first label is not the `www` that is taken off. */
  lemma {:induction false} SiteFixedIff(rs: seq<Rule>, value: string, punycode: Punycode)
    requires AreWellFormed(rs) && SiteOf(Loaded(rs), value, punycode).Some?
    ensures var site := SiteOf(Loaded(rs), value, punycode).value;
      SiteOf(Loaded(rs), site.domain, punycode) == Some(site) <==>
        !IsWww(Split(site.domain, '.')[0]) && !IsAddress(Split(site.domain, '.'))
  {
    var host := HostFrom(value, punycode);
    var site := SiteOfHost(Loaded(rs), host).value;
    var labels := Split(site.domain, '.');
    hide HostFrom, Loaded, IsWww, IsAddress;
    SiteLabels(rs, host);
    HostOfDomain(site.domain, punycode);
    HostFixed(rs, host);
    hide PublicSuffix, SiteOfHost, Split, Join, IsHost;
    if IsWww(labels[0]) {
      ShorterIsOther(rs, labels, site);
    }
  }

  /** A host of fewer labels than a domain is of another site. */
  lemma {:induction false} ShorterIsOther(rs: seq<Rule>, labels: seq<string>, site: Site)
    requires AreWellFormed(rs) && |labels| >= 2 && labels == Split(site.domain, '.') && IsHost(labels)
    ensures SiteOfHost(Loaded(rs), Join(labels[1..], '.')) != Some(site)
  {
    var host := Join(labels[1..], '.');
    HostLabels(labels);
    assert AreLabels(labels[1..]);
    LabelsJoin(labels[1..]);
    hide Loaded, PublicSuffix, Split, SiteOfHost, Join;
    if SiteOfHost(Loaded(rs), host) == Some(site) {
      SiteLabels(rs, host);
      assert false;
    }
  }

  /** Hosts of one registrable domain are one site: same suffix, same privacy. */
  lemma {:induction false} SameDomainSameSite(rs: seq<Rule>, a: string, b: string)
    requires AreWellFormed(rs)
    requires SiteOfHost(Loaded(rs), a).Some? && SiteOfHost(Loaded(rs), b).Some?
    requires SiteOfHost(Loaded(rs), a).value.domain == SiteOfHost(Loaded(rs), b).value.domain
    ensures SiteOfHost(Loaded(rs), a) == SiteOfHost(Loaded(rs), b)
  {
    SiteLabels(rs, a);
    SiteLabels(rs, b);
    hide Loaded, PublicSuffix, Split;
  }

  // ---- Labels of private emails

  const BARE_NAME_TLDS: set<string> := {"com", "org", "net", "io", "app", "co", "dev"}

  /** `replace(/[\s_-]+/g, "")` */
  function Squeezed(s: string): string {
    if s == "" then ""
    else (if IsSpace(s[0]) || s[0] == '_' || s[0] == '-' then "" else [s[0]]) + Squeezed(s[1..])
  }

  /** `labelMatchesSite` */
  predicate LabelMatchesSite(t: Tables, punycode: Punycode, labelText: string, site: Option<Site>) {
    var text := Lower(Trim(labelText));
    if site.None? || text == "" then false
    else if '.' in text then
      var own := SiteOf(t, text, punycode);
      own.Some? && own.value.domain == site.value.domain
    else if site.value.isPrivate || site.value.suffix !in BARE_NAME_TLDS then false
    else
      var n := |site.value.domain| - (|site.value.suffix| + 1);
      Squeezed(text) == ReplaceChar(site.value.domain[..if n < 0 then 0 else n], '-', "")
  }

  /** A label with a dot stands for a whole site: it matches exactly the hosts of
      that site. */
  lemma {:induction false} DottedLabelMatches(rs: seq<Rule>, punycode: Punycode, labelText: string, host: string)
    requires AreWellFormed(rs) && '.' in Lower(Trim(labelText)) && SiteOfHost(Loaded(rs), host).Some?
    ensures LabelMatchesSite(Loaded(rs), punycode, labelText, SiteOfHost(Loaded(rs), host)) <==>
      SiteOf(Loaded(rs), Lower(Trim(labelText)), punycode) == SiteOfHost(Loaded(rs), host)
  {
    var text := Lower(Trim(labelText));
    hide SiteOfHost, Loaded, Lower, Trim, HostFrom;
    if LabelMatchesSite(Loaded(rs), punycode, labelText, SiteOfHost(Loaded(rs), host)) {
      SameDomainSameSite(rs, HostFrom(text, punycode), host);
    }
  }

  /** Letter `k` of `word` stands at `at[k]` in `text`. */
  predicate StandsAt(text: string, gap: char -> bool, word: string, at: seq<nat>) {
    |at| == |word| && forall k | 0 <= k < |at| :: at[k] < |text| && text[at[k]] == word[k] && !gap(word[k])
  }

  predicate Rises(at: seq<nat>) {
    forall j, k | 0 <= j < k < |at| :: at[j] < at[k]
  }

  /** Nothing else of the text counts. */
  predicate CoversText(text: string, gap: char -> bool, at: seq<nat>) {
    forall i | 0 <= i < |text| && !gap(text[i]) :: i in at
  }

  /** `word` is `text` without the characters in `gap`. */
  predicate IsSpeltAt(text: string, gap: char -> bool, word: string, at: seq<nat>) {
    StandsAt(text, gap, word, at) && Rises(at) && CoversText(text, gap, at)
  }

  ghost predicate Spells(text: string, gap: char -> bool, word: string) {
    exists at: seq<nat> :: IsSpeltAt(text, gap, word, at)
  }

  function Without(text: string, gap: char -> bool): string {
    if text == "" then "" else (if gap(text[0]) then "" else [text[0]]) + Without(text[1..], gap)
  }

  /** Positions after one more character in front. */
  function Later(at: seq<nat>): (r: seq<nat>)
    ensures |r| == |at| && forall k | 0 <= k < |at| :: r[k] == at[k] + 1
  {
    seq(|at|, i requires 0 <= i < |at| => at[i] + 1)
  }

  lemma CoversLater(c: char, text: string, gap: char -> bool, at: seq<nat>)
    requires CoversText(text, gap, at)
    ensures gap(c) ==> CoversText([c] + text, gap, Later(at))
    ensures CoversText([c] + text, gap, [0] + Later(at))
  {
    var all := [c] + text;
    forall i | 0 < i < |all| && !gap(all[i]) ensures i in Later(at) {
      assert text[i - 1] == all[i];
      var k :| 0 <= k < |at| && at[k] == i - 1;
      assert Later(at)[k] == i;
    }
  }

  lemma StandsLater(c: char, text: string, gap: char -> bool, word: string, at: seq<nat>)
    requires StandsAt(text, gap, word, at)
    ensures StandsAt([c] + text, gap, word, Later(at))
    ensures !gap(c) ==> StandsAt([c] + text, gap, [c] + word, [0] + Later(at))
  {
    var all, r := [c] + text, Later(at);
    forall k | 0 <= k < |r| ensures r[k] < |all| && all[r[k]] == word[k] {
      assert all[at[k] + 1] == text[at[k]];
    }
    if !gap(c) {
      var first, spelt := [0] + r, [c] + word;
      forall k | 0 <= k < |first| ensures first[k] < |all| && all[first[k]] == spelt[k] && !gap(spelt[k]) {
        assert k > 0 ==> first[k] == r[k - 1] && spelt[k] == word[k - 1];
      }
    }
  }

  lemma RisesLater(at: seq<nat>)
    requires Rises(at)
    ensures Rises(Later(at)) && Rises([0] + Later(at))
  {
    var r := [0] + Later(at);
    forall j, k | 0 <= j < k < |r| ensures r[j] < r[k] {
      assert r[k] == at[k - 1] + 1;
      assert j > 0 ==> r[j] == at[j - 1] + 1;
    }
  }

  lemma SpeltLater(c: char, text: string, gap: char -> bool, word: string, at: seq<nat>)
    requires IsSpeltAt(text, gap, word, at)
    ensures gap(c) ==> IsSpeltAt([c] + text, gap, word, Later(at))
    ensures !gap(c) ==> IsSpeltAt([c] + text, gap, [c] + word, [0] + Later(at))
  {
    hide StandsAt, Rises, CoversText;
    StandsLater(c, text, gap, word, at);
    RisesLater(at);
    CoversLater(c, text, gap, at);
  }

  /** Positions after one character in front is gone. */
  function Sooner(at: seq<nat>): (r: seq<nat>)
    requires forall k | 0 <= k < |at| :: at[k] > 0
    ensures |r| == |at| && forall k | 0 <= k < |at| :: r[k] == at[k] - 1
  {
    seq(|at|, i requires 0 <= i < |at| => at[i] - 1)
  }

  lemma FirstSpelt(c: char, text: string, gap: char -> bool, word: string, at: seq<nat>)
    requires IsSpeltAt([c] + text, gap, word, at)
    ensures gap(c) ==> forall k | 0 <= k < |at| :: at[k] > 0
    ensures !gap(c) ==> at != [] && at[0] == 0 && word != "" && word[0] == c && forall k | 0 < k < |at| :: at[k] > 0
  {
    var all := [c] + text;
    assert all[0] == c;
    if !gap(c) {
      var k :| 0 <= k < |at| && at[k] == 0;
      assert at[0] <= at[k];
    }
  }

  lemma CoversSooner(c: char, text: string, gap: char -> bool, at: seq<nat>)
    requires (forall k | 0 <= k < |at| :: at[k] > 0) && forall i | 0 < i <= |text| && !gap(([c] + text)[i]) :: i in at
    ensures CoversText(text, gap, Sooner(at))
  {
    var r := Sooner(at);
    forall i | 0 <= i < |text| && !gap(text[i]) ensures i in r {
      assert ([c] + text)[i + 1] == text[i];
      var k :| 0 <= k < |at| && at[k] == i + 1;
      assert r[k] == i;
    }
  }

  lemma StandsSooner(c: char, text: string, gap: char -> bool, word: string, at: seq<nat>)
    requires StandsAt([c] + text, gap, word, at) && forall k | 0 <= k < |at| :: at[k] > 0
    ensures StandsAt(text, gap, word, Sooner(at))
  {
    var r := Sooner(at);
    forall k | 0 <= k < |r| ensures r[k] < |text| && text[r[k]] == word[k] {
      assert ([c] + text)[at[k]] == text[at[k] - 1];
    }
  }

  lemma SpeltSooner(c: char, text: string, gap: char -> bool, word: string, at: seq<nat>)
    requires IsSpeltAt([c] + text, gap, word, at)
    ensures gap(c) ==> (forall k | 0 <= k < |at| :: at[k] > 0) && IsSpeltAt(text, gap, word, Sooner(at))
    ensures !gap(c) ==> at != [] && word != "" && word[0] == c && (forall k | 0 < k < |at| :: at[k] > 0)
    ensures !gap(c) ==> (forall k | 0 <= k < |at[1..]| :: at[1..][k] > 0) && IsSpeltAt(text, gap, word[1..], Sooner(at[1..]))
  {
    FirstSpelt(c, text, gap, word, at);
    if gap(c) {
      CoversSooner(c, text, gap, at);
      StandsSooner(c, text, gap, word, at);
    } else {
      var tail := at[1..];
      assert at == [0] + tail;
      assert StandsAt([c] + text, gap, word[1..], tail);
      CoversSooner(c, text, gap, tail);
      StandsSooner(c, text, gap, word[1..], tail);
    }
  }

  lemma {:induction false} SpellsIff(text: string, gap: char -> bool, word: string)
    ensures Spells(text, gap, word) <==> word == Without(text, gap)
  {
    if text == "" {
      assert word == "" ==> IsSpeltAt(text, gap, word, []);
    } else {
      var c, r := text[0], text[1..];
      assert text == [c] + r;
      SpellsIff(r, gap, word);
      SpellsIff(r, gap, if word == "" then "" else word[1..]);
      hide Without, IsSpeltAt;
      WithoutStep(text, gap);
      if Spells(text, gap, word) {
        var at: seq<nat> :| IsSpeltAt(text, gap, word, at);
        SpeltSooner(c, r, gap, word, at);
      }
      if word == Without(text, gap) {
        if gap(c) {
          var at: seq<nat> :| IsSpeltAt(r, gap, word, at);
          SpeltLater(c, r, gap, word, at);
        } else {
          var rest := Without(r, gap);
          SpellsIff(r, gap, rest);
          var at: seq<nat> :| IsSpeltAt(r, gap, rest, at);
          SpeltLater(c, r, gap, rest, at);
        }
      }
      if word != "" {
        assert word == [word[0]] + word[1..];
      }
    }
  }

  lemma {:induction false} WithoutStep(text: string, gap: char -> bool)
    requires text != ""
    ensures Without(text, gap) == if gap(text[0]) then Without(text[1..], gap) else [text[0]] + Without(text[1..], gap)
  {
  }

  predicate IsLabelGap(c: char) {
    IsSpace(c) || c == '_' || c == '-'
  }

  predicate IsHyphen(c: char) {
    c == '-'
  }

  lemma {:induction false} SqueezedIs(s: string)
    ensures Squeezed(s) == Without(s, IsLabelGap)
  {
    if s != "" {
      SqueezedIs(s[1..]);
    }
  }

  lemma {:induction false} UnhyphenedIs(s: string)
    ensures ReplaceChar(s, '-', "") == Without(s, IsHyphen)
  {
    if s != "" {
      UnhyphenedIs(s[1..]);
    }
  }

  lemma {:induction false} SpeltAlike(text: string, name: string)
    ensures Squeezed(text) == ReplaceChar(name, '-', "") <==>
      exists word: string :: Spells(text, IsLabelGap, word) && Spells(name, IsHyphen, word)
  {
    SqueezedIs(text);
    UnhyphenedIs(name);
    hide Squeezed, ReplaceChar, Without, Spells;
    SpellsIff(text, IsLabelGap, Without(text, IsLabelGap));
    SpellsIff(name, IsHyphen, Without(text, IsLabelGap));
    forall word: string ensures Spells(text, IsLabelGap, word) <==> word == Without(text, IsLabelGap) {
      SpellsIff(text, IsLabelGap, word);
    }
    forall word: string ensures Spells(name, IsHyphen, word) <==> word == Without(name, IsHyphen) {
      SpellsIff(name, IsHyphen, word);
    }
  }

  /** A plain name matches only `name` under a generic top-level domain of the
      list, never a tenant of shared hosting. White space, `_` and `-` in the label,
      and `-` in the name, do not count. */
  lemma {:induction false} PlainNameMatches(rs: seq<Rule>, punycode: Punycode, labelText: string, host: string)
    requires AreWellFormed(rs) && '.' !in Lower(Trim(labelText)) && Lower(Trim(labelText)) != ""
    requires SiteOfHost(Loaded(rs), host).Some?
    ensures var site := SiteOfHost(Loaded(rs), host).value;
      LabelMatchesSite(Loaded(rs), punycode, labelText, Some(site)) <==>
      (&& !site.isPrivate && site.suffix in {"com", "org", "net", "io", "app", "co", "dev"}
       && exists name: string, word: string :: '.' !in name && site.domain == name + "." + site.suffix
            && Spells(Lower(Trim(labelText)), IsLabelGap, word) && Spells(name, IsHyphen, word))
  {
    SiteName(rs, host);
    var site := SiteOfHost(Loaded(rs), host).value;
    var name := Split(site.domain, '.')[0];
    NamedSite(rs, punycode, labelText, host);
    SpeltAlike(Lower(Trim(labelText)), name);
    hide SiteOfHost, Loaded, Lower, Trim, Split, PublicSuffix, Squeezed, ReplaceChar, Spells, LabelMatchesSite;
    forall other: string | site.domain == other + "." + site.suffix ensures other == name {
      assert site.domain[..|other|] == other && site.domain[..|name|] == name;
    }
  }

  /** A site's domain is its name, which has no dot, and its suffix. */
  lemma {:induction false} SiteName(rs: seq<Rule>, host: string)
    requires AreWellFormed(rs) && SiteOfHost(Loaded(rs), host).Some?
    ensures var site := SiteOfHost(Loaded(rs), host).value;
      var name := Split(site.domain, '.')[0];
      && '.' !in name && site.domain == name + "." + site.suffix
      && site.domain[..|site.domain| - (|site.suffix| + 1)] == name
  {
    SiteLabels(rs, host);
    var site := SiteOfHost(Loaded(rs), host).value;
    var labels := Split(site.domain, '.');
    LabelsAre(site.domain);
    JoinLabels(site.domain);
    hide SiteOfHost, Loaded, Split, PublicSuffix;
    assert Last(labels, |labels| - 1) == labels[1..];
    assert site.domain == labels[0] + "." + site.suffix;
  }

  lemma {:induction false} NamedSite(rs: seq<Rule>, punycode: Punycode, labelText: string, host: string)
    requires AreWellFormed(rs) && '.' !in Lower(Trim(labelText)) && Lower(Trim(labelText)) != ""
    requires SiteOfHost(Loaded(rs), host).Some?
    ensures var site := SiteOfHost(Loaded(rs), host).value;
      LabelMatchesSite(Loaded(rs), punycode, labelText, Some(site)) <==>
        !site.isPrivate && site.suffix in {"com", "org", "net", "io", "app", "co", "dev"}
        && Squeezed(Lower(Trim(labelText))) == ReplaceChar(Split(site.domain, '.')[0], '-', "")
  {
    SiteName(rs, host);
    hide SiteOfHost, Loaded, Lower, Trim, Split, PublicSuffix, Squeezed, ReplaceChar;
  }

  // ---- A one-label private rule does not set the flag

  const DEV := Rule(Exact, "dev", true)

  lemma ShortRuleIgnored()
    ensures ListRules([], ["dev"]) == [DEV]
    ensures AreWellFormed([DEV]) && IsPrevailing([DEV], ["a", "dev"], 0)
    ensures PublicSuffix(Loaded([DEV]), ["a", "dev"]) == Suffix(1, false)
  {
    DevListed();
    DevMatches();
    hide Loaded, PublicSuffix, ListRules, Split;
    PrevailingSuffix([DEV], ["a", "dev"], 0);
  }

  lemma DevListed()
    ensures ListRules([], ["dev"]) == [DEV]
  {
    assert ParseRule("dev", true) == DEV by {
      assert "dev"[..1] == "d" && "dev"[..2] == "de";
    }
    assert ["dev"][1..] == [];
    assert SectionRules(["dev"], true) == [DEV] + SectionRules([], true);
  }

  /** A rule of one label prevails alone over the hosts that end with it. */
  lemma AlonePrevails(name: string, isPrivate: bool, labels: seq<string>)
    requires '.' !in name && name != "*" && labels != [] && labels[|labels| - 1] == name
    ensures var r := Rule(Exact, name, isPrivate);
      && AreWellFormed([r]) && IsPrevailing([r], labels, 0) && SuffixLength(r) == 1 && IsShort(r)
  {
    var r := Rule(Exact, name, isPrivate);
    LabelsOfOne(name);
    assert Pattern(r) == [name];
    hide Split;
    assert Matches(r, labels);
  }

  lemma DevMatches()
    ensures AreLabels(["a", "dev"]) && AreWellFormed([DEV]) && IsPrevailing([DEV], ["a", "dev"], 0)
    ensures SuffixLength(DEV) == 1 && IsShort(DEV)
  {
    assert "dev" != "*" by {
      assert |"dev"| == 3;
    }
    AlonePrevails("dev", true, ["a", "dev"]);
  }

  // ---- A domain that does not name its site

  const COM := Rule(Exact, "com", false)

  const SHOP: seq<string> := ["shop", "www", "com"]

  lemma ShopLabels()
    ensures AreLabels(SHOP) && IsHost(SHOP) && IsHost(SHOP[1..]) && !IsAddress(SHOP)
    ensures IsWww(SHOP[1]) && !IsWww(SHOP[0])
  {
    assert !StartsWith("shop", "www") by {
      assert "shop"[..3][0] == 's' && "www"[0] == 'w';
    }
    assert "www"[3..] == "" && "www"[..3] == "www";
  }

  lemma ShopTexts()
    ensures Join(SHOP, '.') == "shop.www.com" && Join(SHOP[1..], '.') == "www.com" && Join(SHOP[2..], '.') == "com"
  {
    var w, c := SHOP[1..], SHOP[2..];
    assert w[1..] == c;
    assert Join(c, '.') == "com";
    assert Join(w, '.') == "www" + ['.'] + Join(c, '.');
    assert Join(SHOP, '.') == "shop" + ['.'] + Join(w, '.');
  }

  lemma ComSuffix(labels: seq<string>)
    requires AreLabels(labels) && labels != [] && labels[|labels| - 1] == "com"
    ensures PublicSuffix(Loaded([COM]), labels) == Suffix(1, false)
  {
    assert "com" != "*" by {
      assert |"com"| == 3;
    }
    AlonePrevails("com", false, labels);
    hide Loaded, PublicSuffix, Split, SuffixLength, IsShort;
    PrevailingSuffix([COM], labels, 0);
  }

  /** The site of `shop.www.com` is `www.com`, which names no site, so a private
      email labelled `www.com` is not offered there. */
  lemma ShopSite(punycode: Punycode)
    ensures var site := Site("www.com", "com", false);
      && SiteOf(Loaded([COM]), "shop.www.com", punycode) == Some(site)
      && SiteOf(Loaded([COM]), "www.com", punycode) == None
      && !LabelMatchesSite(Loaded([COM]), punycode, "www.com", Some(site))
  {
    ShopLabels();
    ShopTexts();
    ComSuffix(SHOP);
    LabelsJoin(SHOP);
    LabelsJoin(SHOP[1..]);
    hide Loaded, PublicSuffix, Split, Join, HostFrom, IsHost, IsWww, IsAddress, AreLabels;
    HostOfDomain("shop.www.com", punycode);
    HostOfDomain("www.com", punycode);
    ComAlone();
    WwwText();
    assert Last(SHOP, 2) == SHOP[1..] && Last(SHOP, 1) == SHOP[2..];
    assert SHOP[1..][1..] == SHOP[2..];
  }

  lemma ComAlone()
    ensures !IsHost(Split("com", '.'))
  {
    LabelsOfOne("com");
  }

  lemma WwwText()
    ensures Lower(Trim("www.com")) == "www.com" && '.' in "www.com"
  {
    TrimStable("www.com");
    assert "www.com"[3] == '.';
    hide Trim;
    assert Lower("www.com") == "www.com";
  }
}
