/** Hosts and their labels (`hostFrom` of `extension/site-match.js`). */
module Hosts {
  import opened Strings

  // ---- Labels

  predicate AreLabels(ls: seq<string>) {
    forall i | 0 <= i < |ls| :: '.' !in ls[i]
  }

  lemma {:induction false} LabelsAre(s: string)
    ensures AreLabels(Split(s, '.'))
  {
    if s != "" {
      LabelsAre(s[1..]);
    }
  }

  lemma {:induction false} JoinLabels(s: string)
    ensures Join(Split(s, '.'), '.') == s
  {
    if s != "" {
      var rest := Split(s[1..], '.');
      JoinLabels(s[1..]);
      if s[0] == '.' {
        assert ([""] + rest)[1..] == rest;
      } else {
        var ls := [[s[0]] + rest[0]] + rest[1..];
        assert ls[1..] == rest[1..];
      }
    }
  }

  lemma {:induction false} LabelsOfOne(a: string)
    requires '.' !in a
    ensures Split(a, '.') == [a]
  {
    if a != "" {
      assert a == [a[0]] + a[1..];
      LabelsOfOne(a[1..]);
    }
  }

  lemma {:induction false} LabelsOfPair(a: string, b: string)
    requires '.' !in a
    ensures Split(a + "." + b, '.') == [a] + Split(b, '.')
  {
    var s := a + "." + b;
    if a == "" {
      assert s[1..] == b;
    } else {
      assert s[1..] == a[1..] + "." + b;
      assert a == [a[0]] + a[1..];
      LabelsOfPair(a[1..], b);
    }
  }

  /** Dot-free labels are read back from their join, which is therefore
      injective. */
  lemma {:induction false} LabelsJoin(ls: seq<string>)
    requires ls != [] && AreLabels(ls)
    ensures Split(Join(ls, '.'), '.') == ls
  {
    if |ls| == 1 {
      LabelsOfOne(ls[0]);
    } else {
      LabelsJoin(ls[1..]);
      LabelsOfPair(ls[0], Join(ls[1..], '.'));
    }
  }

  // ---- Host names

  predicate IsHostChar(c: char) {
    ('a' <= c <= 'z') || IsDigit(c) || c == '-'
  }

  predicate IsHostLabel(l: string) {
    l != "" && AllChars(l, IsHostChar)
  }

  /** `/^[a-z0-9-]+(\.[a-z0-9-]+)+$/` */
  predicate IsHost(labels: seq<string>) {
    |labels| >= 2 && forall i | 0 <= i < |labels| :: IsHostLabel(labels[i])
  }

  lemma HostLabels(labels: seq<string>)
    requires IsHost(labels)
    ensures AreLabels(labels)
  {
    forall i | 0 <= i < |labels| ensures '.' !in labels[i] {
      assert IsHostLabel(labels[i]);
    }
  }

  // ---- The host of a typed text

  predicate IsSchemeChar(c: char) {
    ('a' <= c <= 'z') || IsDigit(c) || c == '+' || c == '.' || c == '-'
  }

  predicate IsNotHostEnd(c: char) {
    c != '/' && c != '?' && c != '#'
  }

  predicate IsAscii(c: char) {
    c < '\U{80}'
  }

  /** `replace(/^[a-z][a-z0-9+.-]*:\/\//, "")` */
  function WithoutScheme(s: string): string {
    if s == "" || !('a' <= s[0] <= 'z') then s else
    var n := 1 + Run(s[1..], IsSchemeChar);
    if StartsWith(s[n..], "://") then s[n + 3..] else s
  }

  /** Length of `s` without its trailing digits. */
  function DigitsStart(s: string): (k: nat)
    ensures k <= |s|
  {
    if s == "" || !IsDigit(s[|s| - 1]) then |s| else DigitsStart(s[..|s| - 1])
  }

  /** `replace(/:\d+$/, "")` */
  function WithoutPort(s: string): string {
    var k := DigitsStart(s);
    if 0 < k < |s| && s[k - 1] == ':' then s[..k - 1] else s
  }

  /** `replace(/\.$/, "")` */
  function WithoutDot(s: string): string {
    if s != "" && s[|s| - 1] == '.' then s[..|s| - 1] else s
  }

  /** `replace(/^www\d*\./, "")` */
  function WithoutWww(s: string): string {
    if !StartsWith(s, "www") then s else
    var n := 3 + Run(s[3..], IsDigit);
    if n < |s| && s[n] == '.' then s[n + 1..] else s
  }

  /** A label of the form `www\d*`. */
  predicate IsWww(l: string) {
    StartsWith(l, "www") && AllChars(l[3..], IsDigit)
  }

  /** The host a browser makes of a name that is not ASCII. */
  type Punycode = string -> string

  function HostFrom(value: string, punycode: Punycode): string {
    var s := WithoutScheme(Lower(Trim(value)));
    var s := s[..Run(s, IsNotHostEnd)];
    var host := WithoutWww(WithoutDot(WithoutPort(s)));
    if AllChars(host, IsAscii) then host else punycode(host)
  }

  // ---- The host of a domain

  predicate IsDomainChar(c: char) {
    IsHostChar(c) || c == '.'
  }

  lemma {:induction false} JoinChars(labels: seq<string>)
    requires labels != [] && forall i | 0 <= i < |labels| :: IsHostLabel(labels[i])
    ensures var s := Join(labels, '.');
      && AllChars(s, IsDomainChar) && s != "" && IsHostChar(s[0]) && IsHostChar(s[|s| - 1])
  {
    if |labels| == 1 {
      assert IsHostLabel(labels[0]);
    } else {
      assert IsHostLabel(labels[0]);
      JoinChars(labels[1..]);
    }
  }

  lemma {:induction false} DomainPlain(s: string)
    requires AllChars(s, IsDomainChar) && s != "" && IsHostChar(s[0]) && IsHostChar(s[|s| - 1])
    ensures Trim(s) == s && Lower(s) == s && WithoutScheme(s) == s && Run(s, IsNotHostEnd) == |s|
    ensures WithoutPort(s) == s && WithoutDot(s) == s && AllChars(s, IsAscii)
  {
    NoScheme(s);
    NoPort(s);
    DomainRun(s);
    DomainLower(s);
    HostCharPlain(s[0]);
    HostCharPlain(s[|s| - 1]);
    hide WithoutScheme, WithoutPort, AllChars, Run, Lower, IsHostChar, IsSpace;
    TrimStable(s);
  }

  lemma HostCharPlain(c: char)
    requires IsHostChar(c)
    ensures !IsSpace(c) && c != '.'
  {
  }

  lemma {:induction false} DomainRun(s: string)
    requires AllChars(s, IsDomainChar)
    ensures Run(s, IsNotHostEnd) == |s| && AllChars(s, IsAscii)
  {
    RunIs(s, IsNotHostEnd, |s|);
  }

  lemma DomainLower(s: string)
    requires AllChars(s, IsDomainChar)
    ensures Lower(s) == s
  {
  }

  lemma NoPort(s: string)
    requires AllChars(s, IsDomainChar)
    ensures WithoutPort(s) == s
  {
  }

  lemma NoSchemeMark(s: string, n: nat)
    requires AllChars(s, IsDomainChar) && n <= |s|
    ensures !StartsWith(s[n..], "://")
  {
    if |s| - n >= 3 {
      assert s[n..][..3][0] == s[n] && "://"[0] == ':';
    }
  }

  lemma NoScheme(s: string)
    requires AllChars(s, IsDomainChar)
    ensures WithoutScheme(s) == s
  {
    if s != "" {
      NoSchemeMark(s, 1 + Run(s[1..], IsSchemeChar));
    }
  }

  lemma WwwHead(first: string, rest: string)
    ensures StartsWith(first + "." + rest, "www") == StartsWith(first, "www")
  {
    var s := first + "." + rest;
    if |first| >= 3 {
      assert s[..3] == first[..3];
    } else if |s| >= 3 {
      assert s[..3][|first|] == '.';
      assert forall i | 0 <= i < 3 :: "www"[i] == 'w';
    }
  }

  lemma WwwTaken(first: string, rest: string)
    requires '.' !in first
    ensures WithoutWww(first + "." + rest) == if IsWww(first) then rest else first + "." + rest
  {
    var s := first + "." + rest;
    WwwHead(first, rest);
    if StartsWith(first, "www") {
      var k := Run(first[3..], IsDigit);
      assert s[3..] == first[3..] + ("." + rest);
      var tail := "." + rest;
      assert forall i | 0 <= i < k :: s[3..][i] == first[3..][i];
      assert k < |first[3..]| ==> s[3..][k] == first[3..][k];
      assert k == |first[3..]| ==> s[3..][k] == '.';
      RunIs(s[3..], IsDigit, k);
      hide Run, StartsWith;
      if k == |first[3..]| {
        assert s[3 + k + 1..] == rest;
      } else {
        assert s[3 + k] == first[3 + k] && !IsDigit(first[3..][k]);
      }
    }
  }

  /** The host of a domain is the domain, less a first `www` label. */
  lemma {:induction false} HostOfDomain(domain: string, punycode: Punycode)
    requires IsHost(Split(domain, '.'))
    ensures var labels := Split(domain, '.');
      HostFrom(domain, punycode) == if IsWww(labels[0]) then Join(labels[1..], '.') else domain
  {
    var labels := Split(domain, '.');
    JoinLabels(domain);
    HostLabels(labels);
    JoinChars(labels);
    DomainPlain(domain);
    JoinChars(labels[1..]);
    DomainPlain(Join(labels[1..], '.'));
    assert domain[..|domain|] == domain;
    assert domain == labels[0] + "." + Join(labels[1..], '.');
    WwwTaken(labels[0], Join(labels[1..], '.'));
    hide Split, Join, Trim, Lower, Run, WithoutScheme, WithoutPort, WithoutDot, WithoutWww, AllChars, IsWww;
  }
}
