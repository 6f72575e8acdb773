/** Attribute cleaning of the quote sanitizer (`cleanAttributes`, `safeUrl` and
    `safeStyle` of `shared/quoted-html.ts`). */
module Attributes {
  import opened Strings
  import opened Entities

  const ALLOWED_ATTRS: set<string> := {
    "abbr", "align", "alt", "background", "bgcolor", "border", "cellpadding", "cellspacing",
    "cite", "class", "color", "colspan", "datetime", "dir", "face", "headers", "height", "href",
    "hspace", "lang", "nowrap", "rowspan", "scope", "size", "span", "src", "start", "style",
    "summary", "title", "valign", "vspace", "width"
  }

  const URL_ATTRS: set<string> := {"href", "src", "background", "cite"}

  /** An attribute as written in a tag: its name and its undecoded value. */
  datatype RawAttr = RawAttr(name: string, raw: string)

  /** An attribute that is kept: its lower-case name and its decoded value. */
  datatype Attr = Attr(name: string, value: string)

  // ---- Scanning the attributes of a tag

  predicate IsAttrNameChar(c: char) {
    !IsSpace(c) && c != '"' && c != '\'' && c != '>' && c != '/' && c != '='
  }

  predicate IsUnquotedChar(c: char) {
    !IsSpace(c) && c != '>'
  }

  datatype ValueScan = ValueScan(raw: string, used: nat)

  /** The value at `b`, after `=`: `"…"`, `'…'`, a word, or nothing. */
  function ValueAt(s: string, b: nat): (v: ValueScan)
    requires b <= |s|
    ensures v.used <= |s|
  {
    if b < |s| && (s[b] == '"' || s[b] == '\'') && IndexOf(s[b + 1..], s[b]).Some? then
      var k := IndexOf(s[b + 1..], s[b]).value;
      ValueScan(s[b + 1..b + 1 + k], b + k + 2)
    else
      var k := Run(s[b..], IsUnquotedChar);
      if k > 0 then ValueScan(s[b..b + k], b + k) else ValueScan("", 0)
  }

  /** The optional value after a name. */
  function ScanValue(s: string): (v: ValueScan)
    ensures v.used <= |s|
  {
    var a := Run(s, IsSpace);
    if a < |s| && s[a] == '=' then ValueAt(s, a + 1 + Run(s[a + 1..], IsSpace)) else ValueScan("", 0)
  }

  /** Every match of the attribute expression, in order. */
  function ScanAttrs(s: string): seq<RawAttr>
    decreases |s|
  {
    if s == "" then []
    else if !IsAttrNameChar(s[0]) then ScanAttrs(s[1..])
    else
      var k := Run(s, IsAttrNameChar);
      var v := ScanValue(s[k..]);
      [RawAttr(s[..k], v.raw)] + ScanAttrs(s[k + v.used..])
  }

  // ---- Which values are kept

  predicate IsControlOrBlank(c: char) {
    c <= ' ' || c == '\U{7F}'
  }

  /** Decoded URL text without leading control characters and outer white space. */
  function UrlText(decoded: string): string {
    Trim(decoded[Run(decoded, IsControlOrBlank)..])
  }

  predicate IsImageDataChar(c: char) {
    IsAlnum(c) || c == '+' || c == '/' || c == '=' || IsSpace(c)
  }

  predicate IsImageData(url: string, kind: string) {
    var prefix := "data:image/" + kind + ";base64,";
    && StartsWithFold(url, prefix)
    && |url| > |prefix|
    && forall i | |prefix| <= i < |url| :: IsImageDataChar(url[i])
  }

  predicate HasSafeScheme(url: string) {
    || StartsWithFold(url, "http://") || StartsWithFold(url, "https://")
    || StartsWithFold(url, "mailto:") || StartsWithFold(url, "tel:")
  }

  /** The URLs a quote may carry in attribute `attr` of `tag`. */
  predicate IsSafeUrl(url: string, attr: string, tag: string) {
    || HasSafeScheme(url)
    || (attr == "href" && StartsWith(url, "#"))
    || (attr == "src" && StartsWithFold(url, "cid:"))
    || (attr == "src" && tag == "img" &&
        (IsImageData(url, "png") || IsImageData(url, "gif") || IsImageData(url, "jpg")
         || IsImageData(url, "jpeg") || IsImageData(url, "webp")))
  }

  /** `word\s*mark` at the head of `s`. */
  predicate WordThen(s: string, word: string, mark: char) {
    && StartsWithFold(s, word)
    && var k := |word| + Run(s[|word|..], IsSpace);
       k < |s| && s[k] == mark
  }

  /** CSS that could run code starts here. */
  predicate RiskyCssAt(s: string) {
    || StartsWith(s, "\\")
    || WordThen(s, "expression", '(')
    || StartsWithFold(s, "javascript:") || StartsWithFold(s, "vbscript:")
    || WordThen(s, "behavior", ':') || WordThen(s, "behaviour", ':')
    || StartsWithFold(s, "-moz-binding") || StartsWithFold(s, "@import")
  }

  predicate HasRiskyCss(s: string) {
    exists i | 0 <= i <= |s| :: RiskyCssAt(s[i..])
  }

  predicate IsCssUrlChar(c: char) {
    c != '\'' && c != '"' && c != ')' && !IsSpace(c)
  }

  /** Where the target of `url(` at the head of `s` starts, if `url(` is there. */
  function CssUrlStart(s: string): (r: Option<nat>)
    ensures r.Some? ==> 4 <= r.value <= |s|
  {
    if !WordThen(s, "url", '(') then None else
    var a := 4 + Run(s[3..], IsSpace);
    var b := a + Run(s[a..], IsSpace);
    var c := if b < |s| && (s[b] == '\'' || s[b] == '"') then b + 1 else b;
    Some(c + Run(s[c..], IsSpace))
  }

  predicate IsSafeCssTarget(target: string) {
    || StartsWithFold(target, "http://") || StartsWithFold(target, "https://")
    || StartsWithFold(target, "cid:")
  }

  /** Every `url(` found from left to right has an allowed target. */
  predicate HasSafeCssUrls(s: string)
    decreases |s|
  {
    if s == "" then true
    else
      match CssUrlStart(s)
      case None => HasSafeCssUrls(s[1..])
      case Some(k) =>
        var n := Run(s[k..], IsCssUrlChar);
        IsSafeCssTarget(s[k..k + n]) && HasSafeCssUrls(s[k + n..])
  }

  predicate IsSafeStyle(css: string) {
    !HasRiskyCss(css) && HasSafeCssUrls(css)
  }

  /** The value kept for a decoded attribute value, if the attribute is kept. */
  function KeepValue(tag: string, name: string, decoded: string): Option<string> {
    if name in URL_ATTRS then
      if IsSafeUrl(UrlText(decoded), name, tag) then Some(UrlText(decoded)) else None
    else if name == "style" then
      if IsSafeStyle(decoded) then Some(decoded) else None
    else Some(decoded)
  }

  /** The attributes kept of `raws`, each name once, names in `seen` excluded. */
  function KeepAttrs(tag: string, raws: seq<RawAttr>, seen: set<string>): seq<Attr> {
    if raws == [] then []
    else
      var name := Lower(raws[0].name);
      if name !in ALLOWED_ATTRS || name in seen then KeepAttrs(tag, raws[1..], seen)
      else
        match KeepValue(tag, name, DecodeEntities(raws[0].raw))
        case None => KeepAttrs(tag, raws[1..], seen + {name})
        case Some(v) => [Attr(name, v)] + KeepAttrs(tag, raws[1..], seen + {name})
  }

  // ---- Printing

  function RenderRaw(a: RawAttr): string {
    " " + a.name + "=\"" + a.raw + "\""
  }

  function RenderRaws(raws: seq<RawAttr>): string {
    if raws == [] then "" else RenderRaw(raws[0]) + RenderRaws(raws[1..])
  }

  function Escaped(attrs: seq<Attr>): seq<RawAttr> {
    seq(|attrs|, i requires 0 <= i < |attrs| => RawAttr(attrs[i].name, EscapeAttr(attrs[i].value)))
  }

  predicate HasHref(attrs: seq<Attr>) {
    exists i | 0 <= i < |attrs| :: attrs[i].name == "href"
  }

  const LINK_RAWS: seq<RawAttr> := [RawAttr("target", "_blank"), RawAttr("rel", "noopener noreferrer")]

  /** Links that keep their `href` also get `target` and `rel`. */
  function EmittedRaws(tag: string, attrs: seq<Attr>): seq<RawAttr> {
    Escaped(attrs) + if tag == "a" && HasHref(attrs) then LINK_RAWS else []
  }

  /** What `cleanAttributes` returns for the attribute text of a tag. */
  function CleanedAttributes(tag: string, source: string): string {
    RenderRaws(EmittedRaws(tag, KeepAttrs(tag, ScanAttrs(source), {})))
  }

  lemma {:induction false} RenderRawsConcat(a: seq<RawAttr>, b: seq<RawAttr>)
    ensures RenderRaws(a + b) == RenderRaws(a) + RenderRaws(b)
  {
    if a == [] {
      assert a + b == b;
    } else {
      assert (a + b)[1..] == a[1..] + b;
      RenderRawsConcat(a[1..], b);
    }
  }

  /** Printing one more kept attribute. */
  lemma KeptSnoc(kept: seq<Attr>, a: Attr)
    ensures RenderRaws(Escaped(kept + [a]))
         == RenderRaws(Escaped(kept)) + " " + a.name + "=\"" + EscapeAttr(a.value) + "\""
    ensures HasHref(kept + [a]) == (HasHref(kept) || a.name == "href")
  {
    var e := RawAttr(a.name, EscapeAttr(a.value));
    assert Escaped(kept + [a]) == Escaped(kept) + [e];
    RenderRawsConcat(Escaped(kept), [e]);
    assert [e][1..] == [];
    assert RenderRaws([e]) == RenderRaw(e);
    assert (kept + [a])[|kept|] == a;
    assert forall i | 0 <= i < |kept| :: (kept + [a])[i] == kept[i];
  }

  lemma EmptyKept()
    ensures RenderRaws(Escaped([])) == "" && !HasHref([])
  {
  }

  /** The loop of `cleanAttributes`: attributes are read, filtered and printed
      one at a time. */
  method CleanAttributes(tag: string, source: string) returns (out: string)
    ensures out == CleanedAttributes(tag, source)
  {
    hide ScanValue, Run, Lower, KeepValue, EscapeAttr, DecodeEntities, RenderRaws, Escaped, HasHref;
    EmptyKept();
    out := "";
    var hasHref := false;
    var seen: set<string> := {};
    var rest := source;
    ghost var kept: seq<Attr> := [];
    while rest != ""
      invariant KeepAttrs(tag, ScanAttrs(source), {}) == kept + KeepAttrs(tag, ScanAttrs(rest), seen)
      invariant out == RenderRaws(Escaped(kept))
      invariant hasHref == HasHref(kept)
      decreases |rest|
    {
      if !IsAttrNameChar(rest[0]) {
        rest := rest[1..];
        continue;
      }
      var k := Run(rest, IsAttrNameChar);
      var v := ScanValue(rest[k..]);
      var name := Lower(rest[..k]);
      assert ScanAttrs(rest) == [RawAttr(rest[..k], v.raw)] + ScanAttrs(rest[k + v.used..]);
      assert ScanAttrs(rest)[1..] == ScanAttrs(rest[k + v.used..]);
      rest := rest[k + v.used..];
      if name !in ALLOWED_ATTRS || name in seen {
        continue;
      }
      seen := seen + {name};
      match KeepValue(tag, name, DecodeEntities(v.raw)) {
        case None =>
        case Some(value) =>
          if name == "href" {
            hasHref := true;
          }
          KeptSnoc(kept, Attr(name, value));
          out := out + " " + name + "=\"" + EscapeAttr(value) + "\"";
          kept := kept + [Attr(name, value)];
      }
    }
    assert kept + [] == kept;
    RenderRawsConcat(Escaped(kept), LINK_RAWS);
    assert Escaped(kept) + [] == Escaped(kept);
    if tag == "a" && hasHref {
      out := out + RenderRaws(LINK_RAWS);
    }
  }

  // ---- What was kept is kept again, unchanged

  predicate IsAttrName(name: string) {
    name != "" && Lower(name) == name && AllChars(name, IsAttrNameChar)
  }

  /** Distinct allowed attributes outside `seen` whose values are kept as they are. */
  predicate AreKept(tag: string, attrs: seq<Attr>, seen: set<string>) {
    attrs == [] ||
    (var a := attrs[0];
     && IsAttrName(a.name) && a.name in ALLOWED_ATTRS && a.name !in seen
     && KeepValue(tag, a.name, a.value) == Some(a.value)
     && AreKept(tag, attrs[1..], seen + {a.name}))
  }

  lemma SafeUrlHead(url: string, attr: string, tag: string)
    requires IsSafeUrl(url, attr, tag)
    ensures url != "" && !IsControlOrBlank(url[0])
  {
    if url != "" {
      assert forall k | 1 <= k <= |url| :: Fold(url[..k])[0] == FoldChar(url[0]);
    }
  }

  /** A kept value is a fixed point of the filter. */
  lemma KeepValueStable(tag: string, name: string, decoded: string)
    requires KeepValue(tag, name, decoded).Some?
    ensures var v := KeepValue(tag, name, decoded).value; KeepValue(tag, name, v) == Some(v)
  {
    if name in URL_ATTRS {
      var v := UrlText(decoded);
      SafeUrlHead(v, name, tag);
      TrimEnds(decoded[Run(decoded, IsControlOrBlank)..]);
      RunIs(v, IsControlOrBlank, 0);
      assert v[0..] == v;
      TrimStable(v);
    }
  }

  lemma {:induction false} AreKeptMono(tag: string, attrs: seq<Attr>, more: set<string>, fewer: set<string>)
    requires AreKept(tag, attrs, more) && fewer <= more
    ensures AreKept(tag, attrs, fewer)
  {
    if attrs != [] {
      AreKeptMono(tag, attrs[1..], more + {attrs[0].name}, fewer + {attrs[0].name});
    }
  }

  predicate IsScanned(a: RawAttr) {
    a.name != "" && AllChars(a.name, IsAttrNameChar)
  }

  predicate AreScanned(raws: seq<RawAttr>) {
    forall i | 0 <= i < |raws| :: IsScanned(raws[i])
  }

  lemma {:induction false} ScannedName(s: string, raw: string)
    requires s != "" && IsAttrNameChar(s[0])
    ensures IsScanned(RawAttr(s[..Run(s, IsAttrNameChar)], raw))
  {
  }

  lemma AreScannedCons(a: RawAttr, raws: seq<RawAttr>)
    requires IsScanned(a) && AreScanned(raws)
    ensures AreScanned([a] + raws)
  {
    hide IsScanned;
  }

  lemma {:induction false} ScanAttrsScanned(s: string)
    ensures AreScanned(ScanAttrs(s))
    decreases |s|
  {
    hide IsScanned, ScanValue, Run;
    if s != "" {
      if !IsAttrNameChar(s[0]) {
        ScanAttrsScanned(s[1..]);
      } else {
        var k := Run(s, IsAttrNameChar);
        var v := ScanValue(s[k..]);
        assert k > 0;
        ScanNamed(s, k, v);
        ScannedName(s, v.raw);
        hide ScanAttrs, AreScanned;
        ScanAttrsScanned(s[k + v.used..]);
        AreScannedCons(RawAttr(s[..k], v.raw), ScanAttrs(s[k + v.used..]));
      }
    }
  }

  lemma LowerName(name: string)
    requires name != "" && AllChars(name, IsAttrNameChar)
    ensures IsAttrName(Lower(name))
  {
  }

  /** Whatever the tag says, the attributes kept are allowed, distinct and stable. */
  lemma {:induction false} KeepAttrsKept(tag: string, raws: seq<RawAttr>, seen: set<string>)
    requires AreScanned(raws)
    ensures AreKept(tag, KeepAttrs(tag, raws, seen), seen)
  {
    if raws != [] {
      var name := Lower(raws[0].name);
      LowerName(raws[0].name);
      if name !in ALLOWED_ATTRS || name in seen {
        KeepAttrsKept(tag, raws[1..], seen);
      } else {
        KeepAttrsKept(tag, raws[1..], seen + {name});
        match KeepValue(tag, name, DecodeEntities(raws[0].raw)) {
          case None => AreKeptMono(tag, KeepAttrs(tag, raws[1..], seen + {name}), seen + {name}, seen);
          case Some(v) => KeepValueStable(tag, name, DecodeEntities(raws[0].raw));
        }
      }
    }
  }

  /** Attributes that print so that they can be read back. */
  predicate ArePrintable(raws: seq<RawAttr>) {
    AreScanned(raws) && forall i | 0 <= i < |raws| :: '"' !in raws[i].raw
  }

  lemma ScanValueRendered(raw: string, r: string)
    requires '"' !in raw
    ensures ScanValue(ValueTail(raw, r)) == ValueScan(raw, |raw| + 3)
  {
    var s := ValueTail(raw, r);
    RunIs(s, IsSpace, 0);
    RunIs(s[1..], IsSpace, 0);
    var t := s[2..];
    assert t == raw + "\"" + r;
    assert t[..|raw|] == raw;
    IndexOfIs(t, '"', |raw|);
    assert s[2..2 + |raw|] == raw;
  }

  lemma {:induction false} ScanNamed(s: string, k: nat, v: ValueScan)
    requires 0 < k <= |s| && IsAttrNameChar(s[0])
    requires Run(s, IsAttrNameChar) == k && ScanValue(s[k..]) == v
    ensures ScanAttrs(s) == [RawAttr(s[..k], v.raw)] + ScanAttrs(s[k + v.used..])
  {
    hide ScanValue, Run;
  }

  lemma {:induction false} ScanNameAndValue(a: RawAttr, tail: string, n: nat)
    requires a.name != "" && AllChars(a.name, IsAttrNameChar)
    requires tail != "" && !IsAttrNameChar(tail[0]) && ScanValue(tail) == ValueScan(a.raw, n)
    ensures ScanAttrs(a.name + tail) == [a] + ScanAttrs(tail[n..])
  {
    hide ScanValue, Run, ScanAttrs;
    var t, k := a.name + tail, |a.name|;
    RunIs(t, IsAttrNameChar, k);
    assert t[..k] == a.name && t[k..] == tail;
    hide AllChars;
    ScanNamed(t, k, ScanValue(tail));
    assert t[k + n..] == tail[n..];
  }

  lemma {:induction false} ScanOneRendered(a: RawAttr, rest: string)
    requires a.name != "" && AllChars(a.name, IsAttrNameChar)
    requires '"' !in a.raw
    ensures ScanAttrs(RenderRaw(a) + rest) == [a] + ScanAttrs(rest)
  {
    var tail := ValueTail(a.raw, rest);
    ScanValueRendered(a.raw, rest);
    ScanNameAndValue(a, tail, |a.raw| + 3);
    RenderRawSplit(a, rest);
    ScanSkips(RenderRaw(a) + rest, a.name + tail);
  }

  function ValueTail(raw: string, rest: string): (t: string)
    ensures |t| == |raw| + 3 + |rest| && t[0] == '=' && t[|raw| + 3..] == rest
  {
    "=\"" + raw + "\"" + rest
  }

  lemma RenderRawSplit(a: RawAttr, rest: string)
    ensures RenderRaw(a) + rest == " " + (a.name + ValueTail(a.raw, rest))
  {
  }

  lemma {:induction false} ScanSkips(s: string, t: string)
    requires s == " " + t
    ensures ScanAttrs(s) == ScanAttrs(t)
  {
    assert s[1..] == t;
    assert s[0] == ' ';
  }

  /** Printed attributes scan back to exactly themselves. */
  lemma {:induction false} ScanRendered(raws: seq<RawAttr>)
    requires ArePrintable(raws)
    ensures ScanAttrs(RenderRaws(raws)) == raws
  {
    if raws != [] {
      ScanOneRendered(raws[0], RenderRaws(raws[1..]));
      ScanRendered(raws[1..]);
    }
  }

  lemma LettersAreNameChars(name: string)
    requires forall i | 0 <= i < |name| :: 'a' <= name[i] <= 'z'
    ensures AllChars(name, IsAttrNameChar)
    ensures Lower(name) == name
  {
  }

  lemma LinkTexts()
    ensures '"' !in "_blank" && '"' !in "noopener noreferrer"
  {
  }

  lemma LinkNames()
    ensures ArePrintable(LINK_RAWS)
    ensures Lower("target") == "target" && Lower("rel") == "rel"
  {
    LettersAreNameChars("target");
    LettersAreNameChars("rel");
    LinkTexts();
    hide AllChars, Lower, IsAttrNameChar;
    assert LINK_RAWS[0] == RawAttr("target", "_blank") && LINK_RAWS[1] == RawAttr("rel", "noopener noreferrer");
  }

  lemma {:induction false} EmittedPrintable(tag: string, attrs: seq<Attr>, seen: set<string>)
    requires AreKept(tag, attrs, seen)
    ensures ArePrintable(Escaped(attrs))
    ensures ArePrintable(EmittedRaws(tag, attrs))
  {
    AreKeptNames(tag, attrs, seen);
    forall i | 0 <= i < |attrs| ensures '"' !in EscapeAttr(attrs[i].value) {
      EscapeAttrInert(attrs[i].value);
    }
    LinkNames();
  }

  lemma {:induction false} AreKeptNames(tag: string, attrs: seq<Attr>, seen: set<string>)
    requires AreKept(tag, attrs, seen)
    ensures forall i | 0 <= i < |attrs| :: IsAttrName(attrs[i].name) && attrs[i].name in ALLOWED_ATTRS
  {
    if attrs != [] {
      AreKeptNames(tag, attrs[1..], seen + {attrs[0].name});
    }
  }

  lemma LinkNamesNotAllowed()
    ensures "target" !in ALLOWED_ATTRS && "rel" !in ALLOWED_ATTRS
  {
  }

  lemma {:induction false} LinkNamesDropped(tag: string, seen: set<string>)
    ensures KeepAttrs(tag, LINK_RAWS, seen) == []
  {
    LinkNames();
    LinkNamesNotAllowed();
    assert LINK_RAWS[1..] == [LINK_RAWS[1]] && LINK_RAWS[1..][1..] == [];
    assert KeepAttrs(tag, LINK_RAWS[1..], seen) == [];
  }

  lemma EscapedCons(attrs: seq<Attr>, more: seq<RawAttr>)
    requires attrs != []
    ensures var raws := Escaped(attrs) + more;
      && raws != [] && raws[0] == RawAttr(attrs[0].name, EscapeAttr(attrs[0].value))
      && raws[1..] == Escaped(attrs[1..]) + more
  {
    hide EscapeAttr;
    assert Escaped(attrs)[1..] == Escaped(attrs[1..]);
  }

  lemma {:induction false} KeepAttrsOne(tag: string, raws: seq<RawAttr>, seen: set<string>, a: Attr)
    requires raws != [] && Lower(raws[0].name) == a.name && a.name in ALLOWED_ATTRS && a.name !in seen
    requires KeepValue(tag, a.name, DecodeEntities(raws[0].raw)) == Some(a.value)
    ensures KeepAttrs(tag, raws, seen) == [a] + KeepAttrs(tag, raws[1..], seen + {a.name})
  {
    hide Lower, KeepValue, DecodeEntities, ALLOWED_ATTRS;
  }

  /** Filtering printed attributes again keeps them all; `target` and `rel` go. */
  lemma {:induction false} KeepAttrsAgain(tag: string, attrs: seq<Attr>, more: seq<RawAttr>, seen: set<string>)
    requires AreKept(tag, attrs, seen)
    requires more == [] || more == LINK_RAWS
    ensures KeepAttrs(tag, Escaped(attrs) + more, seen) == attrs
  {
    hide DecodeEntities, EscapeAttr, KeepValue;
    if attrs == [] {
      assert Escaped(attrs) + more == more;
      LinkNamesDropped(tag, seen);
    } else {
      hide ALLOWED_ATTRS, KeepAttrs, Escaped;
      var a := attrs[0];
      DecodeEscapeAttr(a.value);
      EscapedCons(attrs, more);
      KeepAttrsOne(tag, Escaped(attrs) + more, seen, a);
      KeepAttrsAgain(tag, attrs[1..], more, seen + {a.name});
    }
  }
}
