/** The host of a typed or copied address (`hostFrom` of
    `extension/site-match.js`), as a law about texts. */
module HostLaws {
  import opened Strings
  import opened Hosts

  /** An address in parts: white space around it, a scheme, a `www` label, the
      host, a dot and a port after it, and what follows. */
  datatype Typed = Typed(
    before: string, scheme: string, www: string, host: string, dot: bool, port: string, rest: string, after: string)

  function SchemeText(t: Typed): string {
    if t.scheme == "" then "" else t.scheme + "://"
  }

  function PortText(t: Typed): string {
    if t.port == "" then "" else ":" + t.port
  }

  function DotText(t: Typed): string {
    if t.dot then "." else ""
  }

  function AddressText(t: Typed): string {
    SchemeText(t) + (t.www + t.host + DotText(t) + PortText(t) + t.rest)
  }

  function TypedText(t: Typed): string {
    t.before + AddressText(t) + t.after
  }

  predicate IsSchemePart(c: char) {
    'a' <= c <= 'z' || 'A' <= c <= 'Z' || '0' <= c <= '9' || c == '+' || c == '.' || c == '-'
  }

  predicate IsHostPart(c: char) {
    !IsSpace(c) && c != '/' && c != '?' && c != '#' && c != ':'
  }

  /** `www`, digits and a dot, in any case. */
  predicate IsWwwPart(s: string) {
    && |s| >= 4 && Fold(s[..3]) == "www" && s[|s| - 1] == '.'
    && forall i | 3 <= i < |s| - 1 :: '0' <= s[i] <= '9'
  }

  predicate StartsWww(s: string) {
    exists n | 0 <= n <= |s| :: IsWwwPart(s[..n])
  }

  predicate IsTyped(t: Typed) {
    && AllChars(t.before, IsSpace) && AllChars(t.after, IsSpace)
    && (t.scheme != "" ==> ('a' <= t.scheme[0] <= 'z' || 'A' <= t.scheme[0] <= 'Z') && AllChars(t.scheme, IsSchemePart))
    && t.host != "" && AllChars(t.host, IsHostPart) && t.host[|t.host| - 1] != '.'
    && (if t.www == "" then !StartsWww(t.host) else IsWwwPart(t.www))
    && (forall i | 0 <= i < |t.port| :: '0' <= t.port[i] <= '9')
    && (t.rest != "" ==> (t.rest[0] == '/' || t.rest[0] == '?' || t.rest[0] == '#') && !IsSpace(t.rest[|t.rest| - 1]))
  }

  // ---- Lower case, part by part

  lemma LowerConcat(a: string, b: string)
    ensures Lower(a + b) == Lower(a) + Lower(b)
  {
  }

  lemma LowerOne(c: char)
    ensures IsHostPart(c) ==> IsHostPart(LowerChar(c))
    ensures IsSchemePart(c) ==> IsSchemeChar(LowerChar(c))
    ensures c == '.' <==> LowerChar(c) == '.'
    ensures '0' <= c <= '9' ==> LowerChar(c) == c
    ensures ('a' <= c <= 'z' || 'A' <= c <= 'Z') ==> 'a' <= LowerChar(c) <= 'z'
    ensures c == '/' || c == '?' || c == '#' <==> LowerChar(c) == '/' || LowerChar(c) == '?' || LowerChar(c) == '#'
    ensures (c == 'w' || c == 'W') <==> LowerChar(c) == 'w'
  {
  }

  lemma LowerDigits(s: string)
    requires forall i | 0 <= i < |s| :: '0' <= s[i] <= '9'
    ensures Lower(s) == s
  {
  }

  /** The address in lower case. */
  function Lowered(t: Typed): Typed {
    t.(scheme := Lower(t.scheme), www := Lower(t.www), host := Lower(t.host), rest := Lower(t.rest))
  }

  lemma LowerAddress(t: Typed)
    requires forall i | 0 <= i < |t.port| :: '0' <= t.port[i] <= '9'
    ensures Lower(AddressText(t)) == AddressText(Lowered(t))
  {
    LowerDigits(t.port);
    LowerMarks();
    LowerConcat(t.scheme, "://");
    LowerConcat(":", t.port);
    LowerConcat(SchemeText(t), t.www + t.host + DotText(t) + PortText(t) + t.rest);
    LowerConcat(t.www + t.host + DotText(t) + PortText(t), t.rest);
    LowerConcat(t.www + t.host + DotText(t), PortText(t));
    LowerConcat(t.www + t.host, DotText(t));
    LowerConcat(t.www, t.host);
    LowerEmpty(t.scheme);
    hide Lower;
  }

  lemma LowerMarks()
    ensures Lower("://") == "://" && Lower(":") == ":" && Lower(".") == "." && Lower("") == ""
  {
  }

  lemma LowerEmpty(s: string)
    ensures Lower(s) == "" <==> s == ""
  {
    assert |Lower(s)| == |s|;
  }

  // ---- The trimmed text

  lemma AddressEnds(t: Typed)
    requires IsTyped(t)
    ensures var a := AddressText(t); a != "" && !IsSpace(a[0]) && !IsSpace(a[|a| - 1])
  {
    hide IsSpace, StartsWww;
    MarksNoSpace();
    AddressStarts(t);
    AddressStops(t);
  }

  lemma MarksNoSpace()
    ensures !IsSpace('.') && !IsSpace(':')
    ensures forall c | '0' <= c <= '9' || 'a' <= c <= 'z' || 'A' <= c <= 'Z' :: !IsSpace(c)
  {
  }

  lemma FirstOf(a: string, b: string)
    requires a != ""
    ensures a + b != "" && (a + b)[0] == a[0]
  {
  }

  lemma LastOf(a: string, b: string)
    requires b != ""
    ensures a + b != "" && (a + b)[|a + b| - 1] == b[|b| - 1]
  {
  }

  lemma WwwStarts(s: string)
    requires IsWwwPart(s)
    ensures s != "" && (s[0] == 'w' || s[0] == 'W')
  {
    assert Fold(s[..3])[0] == FoldChar(s[0]);
  }

  lemma HostStarts(t: Typed)
    requires IsTyped(t)
    ensures t.www + t.host != "" && !IsSpace((t.www + t.host)[0])
  {
    MarksNoSpace();
    hide IsSpace, IsWwwPart, StartsWww;
    if t.www == "" {
      assert t.www + t.host == t.host;
    } else {
      WwwStarts(t.www);
      FirstOf(t.www, t.host);
    }
  }

  lemma TypedParts(t: Typed)
    requires IsTyped(t)
    ensures t.www == "" || IsWwwPart(t.www)
    ensures t.host != "" && !IsSpace(t.host[0]) && !IsSpace(t.host[|t.host| - 1])
    ensures t.scheme != "" ==> !IsSpace(t.scheme[0])
    ensures t.port != "" ==> !IsSpace(t.port[|t.port| - 1])
    ensures t.rest != "" ==> !IsSpace(t.rest[|t.rest| - 1])
  {
    MarksNoSpace();
    hide IsSpace, IsWwwPart, StartsWww;
  }

  /** The address from the name on. */
  function FromName(t: Typed): string {
    t.www + t.host + (DotText(t) + PortText(t) + t.rest)
  }

  lemma AddressFrom(t: Typed)
    ensures AddressText(t) == SchemeText(t) + FromName(t)
  {
  }

  lemma SchemeFirst(t: Typed)
    ensures t.scheme == "" ==> SchemeText(t) == ""
    ensures t.scheme != "" ==> SchemeText(t) != "" && SchemeText(t)[0] == t.scheme[0]
  {
  }

  lemma AddressStarts(t: Typed)
    requires IsTyped(t)
    ensures AddressText(t) != "" && !IsSpace(AddressText(t)[0])
  {
    hide *;
    TypedParts(t);
    HostStarts(t);
    AddressFrom(t);
    SchemeFirst(t);
    NameFirst(t);
    if t.scheme == "" {
      Nothing(SchemeText(t), FromName(t));
    } else {
      FirstOf(SchemeText(t), FromName(t));
    }
  }

  lemma NameFirst(t: Typed)
    requires t.www + t.host != ""
    ensures FromName(t) != "" && FromName(t)[0] == (t.www + t.host)[0]
  {
    hide DotText, PortText;
    FirstOf(t.www + t.host, DotText(t) + PortText(t) + t.rest);
  }

  /** The address up to its rest. */
  function UpToRest(t: Typed): string {
    SchemeText(t) + t.www + t.host + DotText(t) + PortText(t)
  }

  lemma AddressUpTo(t: Typed)
    ensures AddressText(t) == UpToRest(t) + t.rest
  {
  }

  lemma UpToRestStops(t: Typed)
    requires IsTyped(t)
    ensures UpToRest(t) != "" && !IsSpace(UpToRest(t)[|UpToRest(t)| - 1])
  {
    hide *;
    TypedParts(t);
    MarksNoSpace();
    UpToRestEnds(t);
  }

  lemma UpToRestEnds(t: Typed)
    requires t.host != ""
    ensures UpToRest(t) != ""
    ensures UpToRest(t)[|UpToRest(t)| - 1]
         == if t.port != "" then t.port[|t.port| - 1] else if t.dot then '.' else t.host[|t.host| - 1]
  {
    hide SchemeText;
  }

  lemma AddressStops(t: Typed)
    requires IsTyped(t)
    ensures AddressText(t) != "" && !IsSpace(AddressText(t)[|AddressText(t)| - 1])
  {
    hide *;
    TypedParts(t);
    AddressUpTo(t);
    UpToRestStops(t);
    if t.rest == "" {
      Ends(UpToRest(t), t.rest);
    } else {
      LastOf(UpToRest(t), t.rest);
    }
  }

  lemma Ends(a: string, b: string)
    ensures b == "" ==> a + b == a
  {
  }

  lemma TrimmedIs(t: Typed)
    requires IsTyped(t)
    ensures Trim(TypedText(t)) == AddressText(t)
  {
    hide AddressText, IsSpace, Trim;
    AddressEnds(t);
    TrimAround(t.before, AddressText(t), t.after);
  }

  // ---- The parts that are cut off

  /** What stands after the scheme, in lower case. */
  function Located(t: Typed): string {
    t.www + t.host + DotText(t) + PortText(t) + t.rest
  }

  predicate IsLow(c: char) {
    LowerChar(c) == c
  }

  /** A typed address that is in lower case. */
  predicate IsLowTyped(t: Typed) {
    && (t.scheme != "" ==> 'a' <= t.scheme[0] <= 'z' && AllChars(t.scheme, IsSchemeChar))
    && t.host != "" && AllChars(t.host, IsHostPart) && t.host[|t.host| - 1] != '.'
    && (if t.www == "" then !StartsWww(t.host) else IsWwwPart(t.www)) && AllChars(t.www + t.host, IsLow)
    && (forall i | 0 <= i < |t.port| :: '0' <= t.port[i] <= '9')
    && (t.rest != "" ==> t.rest[0] == '/' || t.rest[0] == '?' || t.rest[0] == '#')
  }

  lemma LowOnce(c: char)
    ensures IsLow(LowerChar(c))
  {
  }

  lemma LowerWww(s: string)
    ensures IsWwwPart(Lower(s)) <==> IsWwwPart(s)
  {
    if |s| >= 4 {
      forall i | 0 <= i < |s| ensures Lower(s)[i] == LowerChar(s[i]) && (FoldChar(Lower(s)[i]) == 'w' <==> FoldChar(s[i]) == 'w') {
        LowerOne(s[i]);
      }
      WwwFold(s);
      WwwFold(Lower(s));
      LowerDigitIff(s);
    }
  }

  lemma WwwFold(s: string)
    requires |s| >= 3
    ensures Fold(s[..3]) == "www" <==> FoldChar(s[0]) == 'w' && FoldChar(s[1]) == 'w' && FoldChar(s[2]) == 'w'
  {
    assert Fold(s[..3]) == [FoldChar(s[0]), FoldChar(s[1]), FoldChar(s[2])];
  }

  lemma LowerDigitIff(s: string)
    ensures |Lower(s)| == |s| && forall i | 0 <= i < |s| :: ('0' <= Lower(s)[i] <= '9' <==> '0' <= s[i] <= '9') && (Lower(s)[i] == '.' <==> s[i] == '.')
  {
  }

  lemma LowerStartsWww(s: string)
    ensures StartsWww(Lower(s)) <==> StartsWww(s)
  {
    hide IsWwwPart;
    forall n | 0 <= n <= |s| ensures |Lower(s)| == |s| && (IsWwwPart(Lower(s)[..n]) <==> IsWwwPart(s[..n])) {
      LowerWww(s[..n]);
      assert Lower(s)[..n] == Lower(s[..n]);
    }
    assert |Lower(s)| == |s|;
  }

  lemma LoweredIs(t: Typed)
    requires IsTyped(t)
    ensures IsLowTyped(Lowered(t))
  {
    var u := Lowered(t);
    LowerStartsWww(t.host);
    LowerWww(t.www);
    LowerEmpty(t.www);
    LowerParts(t);
    hide Lower, IsWwwPart, StartsWww, IsHostPart, IsSchemeChar, IsSpace, IsLow, IsSchemePart;
  }

  lemma LowerParts(t: Typed)
    requires IsTyped(t)
    ensures var u := Lowered(t);
      && (u.scheme != "" ==> 'a' <= u.scheme[0] <= 'z' && AllChars(u.scheme, IsSchemeChar))
      && u.host != "" && AllChars(u.host, IsHostPart) && u.host[|u.host| - 1] != '.' && AllChars(u.www + u.host, IsLow)
      && (u.rest != "" ==> u.rest[0] == '/' || u.rest[0] == '?' || u.rest[0] == '#')
  {
    hide IsWwwPart, StartsWww, IsSpace, IsSchemePart, IsSchemeChar, IsHostPart, LowerChar, IsLow;
    var u := Lowered(t);
    forall i | 0 <= i < |t.scheme| ensures IsSchemeChar(u.scheme[i]) && (i == 0 ==> 'a' <= u.scheme[i] <= 'z') {
      LowerOne(t.scheme[i]);
    }
    forall i | 0 <= i < |t.host| ensures IsHostPart(u.host[i]) && IsLow(u.host[i]) && (u.host[i] == '.' <==> t.host[i] == '.') {
      LowerOne(t.host[i]);
      LowOnce(t.host[i]);
    }
    forall i | 0 <= i < |t.www| ensures IsLow(u.www[i]) {
      LowOnce(t.www[i]);
    }
    if t.rest != "" {
      LowerOne(t.rest[0]);
    }
  }

  lemma NoSchemeText(t: Typed)
    ensures t.scheme == "" ==> SchemeText(t) + Located(t) == Located(t)
  {
    hide Located;
  }

  lemma SchemeIs(t: Typed, x: string)
    requires IsLowTyped(t) && t.scheme != ""
    ensures SchemeText(t) + x == t.scheme + ("://" + x) && 'a' <= t.scheme[0] <= 'z' && AllChars(t.scheme, IsSchemeChar)
  {
    hide IsHostPart, IsWwwPart, StartsWww, IsLow, IsSchemeChar;
  }

  lemma SchemeCut(t: Typed)
    requires IsLowTyped(t)
    ensures WithoutScheme(AddressText(t)) == Located(t)
  {
    hide *;
    LocatedIs(t);
    if t.scheme == "" {
      NoSchemeText(t);
      NoScheme(t);
    } else {
      SchemeIs(t, Located(t));
      SchemeRun(t.scheme, Located(t));
    }
  }

  lemma LocatedIs(t: Typed)
    ensures AddressText(t) == SchemeText(t) + Located(t)
  {
  }

  lemma SchemeRun(scheme: string, x: string)
    requires scheme != "" && 'a' <= scheme[0] <= 'z' && AllChars(scheme, IsSchemeChar)
    ensures WithoutScheme(scheme + ("://" + x)) == x
  {
    var s, n := scheme + ("://" + x), |scheme|;
    var u := s[1..];
    assert u == scheme[1..] + ("://" + x);
    assert forall i | 0 <= i < n - 1 :: u[i] == scheme[i + 1];
    RunIs(u, IsSchemeChar, n - 1);
    assert s[n..] == "://" + x;
    assert ("://" + x)[..3] == "://";
    assert s[n + 3..] == x;
  }

  /** Without a scheme no `://` follows a run of scheme characters. */
  lemma NoScheme(t: Typed)
    requires IsLowTyped(t)
    ensures WithoutScheme(Located(t)) == Located(t)
  {
    hide IsHostPart, IsWwwPart, StartsWww, IsLow, Located, StartsWith, IsLowTyped;
    var s := Located(t);
    if s != "" && 'a' <= s[0] <= 'z' {
      var n := 1 + Run(s[1..], IsSchemeChar);
      assert forall i | 1 <= i < n :: s[i] == s[1..][i - 1];
      hide Run, IsSchemeChar;
      NoColonSlash(t, n);
      if StartsWith(s[n..], "://") {
        ColonAt(s, n);
      }
    }
  }

  lemma ColonAt(s: string, n: nat)
    requires n <= |s| && StartsWith(s[n..], "://")
    ensures n + 1 < |s| && s[n] == ':' && s[n + 1] == '/'
  {
    assert s[n..][..3][0] == s[n] && s[n..][..3][1] == s[n + 1];
  }

  /** What is looked at as a host: the `www` label, the host and its dot. */
  function Named(t: Typed): string {
    t.www + t.host + DotText(t)
  }

  lemma NamedChars(t: Typed)
    requires IsLowTyped(t)
    ensures Named(t) != "" && AllChars(Named(t), IsHostPart)
  {
    var a := Named(t);
    WwwChars(t.www);
    DotIsPart();
    hide IsHostPart, IsWwwPart, StartsWww, IsLow, IsSchemeChar;
    forall i | 0 <= i < |a| ensures IsHostPart(a[i]) {
      if i < |t.www| {
        assert a[i] == t.www[i];
      } else if i < |t.www| + |t.host| {
        assert a[i] == t.host[i - |t.www|];
      } else {
        assert a[i] == '.';
      }
    }
  }

  lemma DotIsPart()
    ensures IsHostPart('.')
  {
  }

  lemma WwwChars(s: string)
    ensures IsWwwPart(s) ==> AllChars(s, IsHostPart)
  {
    if IsWwwPart(s) {
      WwwFold(s);
    }
  }

  lemma LocatedParts(t: Typed)
    ensures Located(t) == Named(t) + (PortText(t) + t.rest)
  {
  }

  /** After the name: nothing, a port, or the rest. */
  lemma AfterName(t: Typed)
    requires IsLowTyped(t)
    ensures var s, k := Located(t), |Named(t)|;
      k < |s| ==> !IsSchemeChar(s[k]) && (s[k] == ':' ==> k + 1 < |s| && s[k + 1] != '/')
  {
    hide IsHostPart, IsWwwPart, StartsWww, IsLow, Named, Located;
    LocatedParts(t);
    var x := PortText(t) + t.rest;
    assert |Named(t)| < |Located(t)| ==> Located(t)[|Named(t)|] == x[0];
    assert |Named(t)| + 1 < |Located(t)| ==> Located(t)[|Named(t)| + 1] == x[1];
  }

  lemma InName(t: Typed, n: nat)
    requires IsLowTyped(t) && n < |Named(t)|
    ensures n < |Located(t)| && Located(t)[n] != ':'
  {
    hide IsWwwPart, StartsWww, IsLow, Named, Located, IsLowTyped;
    LocatedParts(t);
    NamedChars(t);
    assert Located(t)[n] == Named(t)[n];
  }

  /** No `:/` follows a run of scheme characters. */
  lemma NoColonSlash(t: Typed, n: nat)
    requires IsLowTyped(t) && 0 < n <= |Located(t)|
    requires forall i | 1 <= i < n :: IsSchemeChar(Located(t)[i])
    ensures n + 1 < |Located(t)| ==> !(Located(t)[n] == ':' && Located(t)[n + 1] == '/')
  {
    hide IsHostPart, IsWwwPart, StartsWww, IsLow, Named, Located, IsLowTyped, IsSchemeChar;
    NamedChars(t);
    AfterName(t);
    if n < |Named(t)| {
      InName(t, n);
    }
  }

  lemma HostChars(c: char)
    requires IsHostPart(c) || c == ':' || '0' <= c <= '9'
    ensures IsNotHostEnd(c)
  {
  }

  /** What is looked at ends where the rest starts. */
  lemma RestCut(t: Typed)
    requires IsLowTyped(t)
    ensures var s := Located(t); s[..Run(s, IsNotHostEnd)] == Named(t) + PortText(t)
  {
    hide IsWwwPart, StartsWww, IsLow, Located, Named, IsHostPart, IsNotHostEnd;
    LocatedParts(t);
    NamedChars(t);
    var s, a := Located(t), Named(t) + PortText(t);
    assert s == a + t.rest;
    forall i | 0 <= i < |a| ensures IsNotHostEnd(a[i]) {
      if i >= |Named(t)| {
        assert a[i] == PortText(t)[i - |Named(t)|];
      }
      HostChars(a[i]);
    }
    RestStarts(t.rest);
    RunIs(s, IsNotHostEnd, |a|);
  }

  lemma RestStarts(rest: string)
    requires rest != "" ==> rest[0] == '/' || rest[0] == '?' || rest[0] == '#'
    ensures rest != "" ==> !IsNotHostEnd(rest[0])
  {
  }

  lemma {:induction false} DigitsEnd(a: string, port: string)
    requires a != "" && a[|a| - 1] == ':' && forall i | 0 <= i < |port| :: '0' <= port[i] <= '9'
    ensures DigitsStart(a + port) == |a|
  {
    if port == "" {
      assert a + port == a;
    } else {
      var n := |port| - 1;
      assert (a + port)[..|a| + n] == a + port[..n];
      DigitsEnd(a, port[..n]);
    }
  }

  lemma PortCut(a: string, port: string)
    requires ':' !in a && forall i | 0 <= i < |port| :: '0' <= port[i] <= '9'
    ensures WithoutPort(a + if port == "" then "" else ":" + port) == a
  {
    hide DigitsStart;
    if port == "" {
      assert a + "" == a;
      var k := DigitsStart(a);
      assert 0 < k < |a| ==> a[k - 1] in a;
    } else {
      DigitsEnd(a + ":", port);
      assert a + (":" + port) == a + ":" + port;
      assert (a + ":" + port)[..|a|] == a;
    }
  }

  lemma NoColon(a: string)
    requires AllChars(a, IsHostPart)
    ensures ':' !in a
  {
  }

  lemma DotCut(t: Typed)
    requires IsLowTyped(t)
    ensures WithoutDot(Named(t)) == t.www + t.host
  {
    hide IsHostPart, IsWwwPart, StartsWww, IsLow, IsSchemeChar;
    var a := t.www + t.host;
    if t.dot {
      assert (a + ".")[..|a|] == a;
    } else {
      assert a + "" == a && a[|a| - 1] == t.host[|t.host| - 1];
    }
  }

  lemma LowWww(s: string)
    requires IsWwwPart(s) && AllChars(s, IsLow)
    ensures s[..3] == "www"
  {
    WwwFold(s);
    assert IsLow(s[0]) && IsLow(s[1]) && IsLow(s[2]);
    assert s[..3] == [s[0], s[1], s[2]];
  }

  lemma WwwGone(www: string, host: string)
    requires IsWwwPart(www) && AllChars(www, IsLow)
    ensures WithoutWww(www + host) == host
  {
    LowWww(www);
    hide IsLow;
    var s, k := www + host, |www| - 4;
    assert s[..3] == www[..3];
    assert forall i | 0 <= i < k :: s[3..][i] == www[i + 3];
    assert s[3..][k] == '.';
    RunIs(s[3..], IsDigit, k);
    assert s[|www|..] == host;
  }

  lemma NoWww(host: string)
    requires !StartsWww(host)
    ensures WithoutWww(host) == host
  {
    if StartsWith(host, "www") {
      var n := 3 + Run(host[3..], IsDigit);
      assert forall i | 3 <= i < n :: host[i] == host[3..][i - 3];
      hide Run;
      if n < |host| && host[n] == '.' {
        WwwHere(host, n);
      }
    }
  }

  lemma WwwHere(host: string, n: nat)
    requires StartsWith(host, "www") && 3 <= n < |host| && host[n] == '.' && forall i | 3 <= i < n :: '0' <= host[i] <= '9'
    ensures StartsWww(host)
  {
    var s := host[..n + 1];
    assert s[..3] == host[..3] && Fold("www") == "www";
    assert IsWwwPart(host[..n + 1]);
  }

  lemma LowParts(t: Typed)
    requires IsLowTyped(t)
    ensures AllChars(t.www, IsLow) && forall i | 0 <= i < |t.port| :: '0' <= t.port[i] <= '9'
    ensures if t.www == "" then !StartsWww(t.host) else IsWwwPart(t.www)
  {
    hide IsHostPart, IsWwwPart, StartsWww, IsLow, IsSchemeChar;
    assert forall i | 0 <= i < |t.www| :: (t.www + t.host)[i] == t.www[i];
  }

  lemma HostLeft(t: Typed)
    requires IsLowTyped(t)
    ensures WithoutWww(WithoutDot(WithoutPort(Named(t) + PortText(t)))) == t.host
  {
    hide *;
    LowParts(t);
    NamedChars(t);
    NoColon(Named(t));
    PortIs(t);
    PortCut(Named(t), t.port);
    DotCut(t);
    if t.www == "" {
      NoWww(t.host);
      Nothing(t.www, t.host);
    } else {
      WwwGone(t.www, t.host);
    }
  }

  lemma PortIs(t: Typed)
    ensures PortText(t) == if t.port == "" then "" else ":" + t.port
  {
  }

  lemma Nothing(a: string, b: string)
    ensures a == "" ==> a + b == b
  {
  }

  lemma {:induction false} HostIs(value: string, punycode: Punycode, located: string, s: string, host: string)
    requires WithoutScheme(Lower(Trim(value))) == located && s == located[..Run(located, IsNotHostEnd)]
    requires host == WithoutWww(WithoutDot(WithoutPort(s)))
    ensures HostFrom(value, punycode) == if AllChars(host, IsAscii) then host else punycode(host)
  {
    hide Trim, Lower, Run, WithoutScheme, WithoutWww, WithoutDot, WithoutPort, AllChars;
  }

  lemma AsciiIs(host: string)
    ensures AllChars(host, IsAscii) <==> forall i | 0 <= i < |host| :: host[i] < '\U{80}'
  {
  }

  /** Of a typed address only the host is left, in lower case: a browser is asked
      about names that are not ASCII. */
  lemma HostFound(t: Typed, punycode: Punycode)
    requires IsTyped(t)
    ensures var host := Lower(t.host);
      HostFrom(TypedText(t), punycode) ==
        if forall i | 0 <= i < |host| :: host[i] < '\U{80}' then host else punycode(host)
  {
    hide *;
    var u := Lowered(t);
    TrimmedIs(t);
    PortDigits(t);
    LowerAddress(t);
    LoweredIs(t);
    SchemeCut(u);
    RestCut(u);
    HostLeft(u);
    LoweredHost(t);
    HostIs(TypedText(t), punycode, Located(u), Named(u) + PortText(u), u.host);
    AsciiIs(u.host);
  }

  lemma PortDigits(t: Typed)
    requires IsTyped(t)
    ensures forall i | 0 <= i < |t.port| :: '0' <= t.port[i] <= '9'
  {
  }

  lemma LoweredHost(t: Typed)
    ensures Lowered(t).host == Lower(t.host)
  {
  }
}
