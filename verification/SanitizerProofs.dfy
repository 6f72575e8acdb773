/** What the sanitizer's output is: well-nested allowed tags that read back as
    themselves, so that sanitizing again changes nothing. */
module SanitizerProofs {
  import opened Strings
  import opened Entities
  import opened Attributes
  import opened Sanitizer

  // ---- Clean tokens

  predicate IsTagName(name: string) {
    && name != "" && IsLetter(name[0]) && Lower(name) == name
    && AllChars(name, IsTagNameChar)
    && IsAllowed(name) && !IsDropped(name)
  }

  /** A token the sanitizer may emit. */
  predicate IsClean(t: Token) {
    match t
    case Chr(c) => c != '<' && c != '>'
    case Open(name, attrs) => IsTagName(name) && AreKept(name, attrs, {})
    case Close(name) => IsTagName(name)
  }

  predicate AreClean(ts: seq<Token>) {
    forall i | 0 <= i < |ts| :: IsClean(ts[i])
  }

  lemma LowerTagName(name: string)
    requires name != "" && IsLetter(name[0]) && AllChars(name, IsTagNameChar)
    ensures var l := Lower(name);
      l != "" && IsLetter(l[0]) && Lower(l) == l && AllChars(l, IsTagNameChar)
  {
  }

  lemma MarkupClean(s: string)
    requires s != "" && s[0] == '<'
    ensures AreClean(MarkupAt(s).tokens)
  {
    hide TagAt, Find, IndexOf, AfterClose, EndsWithSlash, KeepAttrs, ScanAttrs, AreKept, IsDropped, IsAllowed;
    if TagAt(s).Some? {
      var t := TagAt(s).value;
      LowerTagName(t.name);
      ScanAttrsScanned(t.attrs);
      KeepAttrsKept(Lower(t.name), ScanAttrs(t.attrs), {});
    }
  }

  /** Whatever the input, the scanner yields clean tokens only. */
  lemma {:induction false} LexClean(s: string)
    ensures AreClean(Lex(s))
    decreases |s|
  {
    if s != "" {
      if s[0] == '<' {
        MarkupClean(s);
        LexClean(s[MarkupAt(s).used..]);
      } else {
        LexClean(s[1..]);
      }
    }
  }

  predicate AreTagNames(open: seq<string>) {
    forall i | 0 <= i < |open| :: IsTagName(open[i])
  }

  lemma {:induction false} ClosersClean(open: seq<string>)
    requires AreTagNames(open)
    ensures AreClean(Closers(open))
  {
    if open != [] {
      ClosersClean(open[..|open| - 1]);
    }
  }

  lemma {:induction false} BalanceClean(ts: seq<Token>, open: seq<string>)
    requires AreClean(ts) && AreTagNames(open)
    ensures AreClean(Balance(ts, open))
  {
    if ts == [] {
      ClosersClean(open);
    } else {
      match ts[0] {
        case Chr(_) => BalanceClean(ts[1..], open);
        case Open(name, _) => BalanceClean(ts[1..], if IsVoid(name) then open else open + [name]);
        case Close(name) =>
          match LastIndexOf(open, name) {
            case None => BalanceClean(ts[1..], open);
            case Some(at) =>
              ClosersClean(open[at..]);
              BalanceClean(ts[1..], open[..at]);
          }
      }
    }
  }

  // ---- Nesting

  /** The elements still open after `ts`, or nothing when some closing tag does
      not close the innermost open element. */
  function Nest(ts: seq<Token>, open: seq<string>): Option<seq<string>> {
    if ts == [] then Some(open)
    else
      match ts[0]
      case Chr(_) => Nest(ts[1..], open)
      case Open(name, _) => Nest(ts[1..], if IsVoid(name) then open else open + [name])
      case Close(name) =>
        if open != [] && open[|open| - 1] == name then Nest(ts[1..], open[..|open| - 1]) else None
  }

  lemma {:induction false} NestClosers(open: seq<string>, at: nat, ts: seq<Token>)
    requires at <= |open|
    ensures Nest(Closers(open[at..]) + ts, open) == Nest(ts, open[..at])
    decreases |open|
  {
    var top := open[at..];
    if top == [] {
      assert Closers(top) + ts == ts && open[..at] == open;
    } else {
      var lower := open[..|open| - 1];
      assert top[..|top| - 1] == lower[at..];
      var rest := Closers(lower[at..]) + ts;
      assert Closers(top) + ts == [Close(open[|open| - 1])] + rest;
      assert ([Close(open[|open| - 1])] + rest)[1..] == rest;
      assert lower[..at] == open[..at];
      NestClosers(lower, at, ts);
    }
  }

  /** Balancing always produces a well-nested word that closes what was open. */
  lemma {:induction false} BalanceNests(ts: seq<Token>, open: seq<string>)
    ensures Nest(Balance(ts, open), open) == Some([])
  {
    if ts == [] {
      NestClosers(open, 0, []);
      assert open[0..] == open && Closers(open) + [] == Closers(open);
    } else {
      match ts[0] {
        case Chr(_) => BalanceNests(ts[1..], open);
        case Open(name, _) => BalanceNests(ts[1..], if IsVoid(name) then open else open + [name]);
        case Close(name) =>
          match LastIndexOf(open, name) {
            case None => BalanceNests(ts[1..], open);
            case Some(at) =>
              NestClosers(open, at, Balance(ts[1..], open[..at]));
              BalanceNests(ts[1..], open[..at]);
          }
      }
    }
  }

  /** A well-nested word is already balanced. */
  lemma {:induction false} BalanceNested(ts: seq<Token>, open: seq<string>)
    requires Nest(ts, open) == Some([])
    ensures Balance(ts, open) == ts
  {
    if ts != [] {
      match ts[0] {
        case Chr(_) => BalanceNested(ts[1..], open);
        case Open(name, _) => BalanceNested(ts[1..], if IsVoid(name) then open else open + [name]);
        case Close(name) =>
          assert open[|open| - 1..] == [name];
          assert [name][..0] == [];
          assert Closers([name]) == [Close(name)];
          BalanceNested(ts[1..], open[..|open| - 1]);
      }
    }
  }

  // ---- Reading back what was printed

  lemma {:induction false} BodyEndSkips(w: string, t: string)
    requires forall i | 0 <= i < |w| :: w[i] != '>' && w[i] != '"' && w[i] != '\''
    ensures BodyEnd(w + t) == Shift(BodyEnd(t), |w|)
  {
    if w == "" {
      assert w + t == t;
    } else {
      assert (w + t)[1..] == w[1..] + t;
      BodyEndSkips(w[1..], t);
    }
  }

  function Quoted(raw: string, t: string): (s: string)
    ensures |s| == |raw| + 2 + |t| && s[0] == '"' && s[|raw| + 1] == '"'
    ensures s[1..][..|raw|] == raw && s[|raw| + 2..] == t
  {
    "\"" + raw + "\"" + t
  }

  lemma {:induction false} BodyEndQuoted(raw: string, t: string)
    requires '"' !in raw
    ensures BodyEnd(Quoted(raw, t)) == Shift(BodyEnd(t), |raw| + 2)
  {
    hide Quoted;
    IndexOfIs(Quoted(raw, t)[1..], '"', |raw|);
  }

  function AttrHead(name: string): (s: string)
    ensures |s| == |name| + 2
  {
    " " + name + "="
  }

  lemma AttrSplit(a: RawAttr, t: string)
    ensures RenderRaw(a) + t == AttrHead(a.name) + Quoted(a.raw, t)
  {
  }

  lemma AttrHeadPlain(name: string)
    requires AllChars(name, IsAttrNameChar)
    ensures var s := AttrHead(name);
      forall i | 0 <= i < |s| :: s[i] != '>' && s[i] != '"' && s[i] != '\''
  {
  }

  lemma RenderRawLength(a: RawAttr)
    ensures |RenderRaw(a)| == |AttrHead(a.name)| + |a.raw| + 2
  {
  }

  lemma {:induction false} BodyEndOneAttr(a: RawAttr, t: string)
    requires AllChars(a.name, IsAttrNameChar)
    requires '"' !in a.raw
    ensures BodyEnd(RenderRaw(a) + t) == Shift(BodyEnd(t), |RenderRaw(a)|)
  {
    hide BodyEnd, Quoted, AttrHead, RenderRaw, AllChars, IsAttrNameChar;
    AttrSplit(a, t);
    RenderRawLength(a);
    AttrHeadPlain(a.name);
    BodyEndQuoted(a.raw, t);
    BodyEndSkips(AttrHead(a.name), Quoted(a.raw, t));
  }

  /** Printed attributes are closed quotes: the next `>` ends the tag. */
  lemma {:induction false} BodyEndRendered(raws: seq<RawAttr>, t: string)
    requires ArePrintable(raws)
    ensures BodyEnd(RenderRaws(raws) + t) == Shift(BodyEnd(t), |RenderRaws(raws)|)
  {
    hide BodyEnd, RenderRaw;
    if raws == [] {
      assert RenderRaws(raws) + t == t;
      BodyEndSkips("", t);
    } else {
      var r := RenderRaws(raws[1..]);
      assert RenderRaws(raws) + t == RenderRaw(raws[0]) + (r + t);
      BodyEndOneAttr(raws[0], r + t);
      BodyEndRendered(raws[1..], t);
    }
  }

  function Lead(closing: bool): (s: string)
    ensures |s| == if closing then 2 else 1
  {
    if closing then "</" else "<"
  }

  lemma TagNameHead(name: string)
    requires IsTagName(name)
    ensures name != "" && IsLetter(name[0])
  {
  }

  lemma {:induction false} NameRun(name: string, tail: string)
    requires IsTagName(name)
    requires tail != "" && !IsTagNameChar(tail[0])
    ensures Run(name + tail, IsTagNameChar) == |name|
  {
    RunIs(name + tail, IsTagNameChar, |name|);
  }

  lemma TagSlices(s: string, lead: string, name: string, body: string, t: string, k: nat, e: nat)
    requires s == lead + name + body + t && t != ""
    requires k == |lead| + |name| && e == k + |body|
    ensures e < |s| && s[|lead|..k] == name && s[k..e] == body && s[k..] == body + t
    ensures s[k] == (body + t)[0]
  {
  }

  predicate StartsTag(s: string, p: nat) {
    |s| >= 2 && s[0] == '<' && p == (if s[1] == '/' then 2 else 1)
  }

  lemma TagStart(s: string, closing: bool, name: string, body: string, t: string)
    requires s == Lead(closing) + name + body + t
    requires name != "" && IsLetter(name[0])
    ensures StartsTag(s, |Lead(closing)|)
  {
    assert s[|Lead(closing)|] == name[0];
  }

  lemma TagAtIs(s: string, p: nat, k: nat, e: nat)
    requires |s| >= 2 && s[0] == '<' && p == (if s[1] == '/' then 2 else 1) && p < |s| && IsLetter(s[p])
    requires k == p + Run(s[p..], IsTagNameChar)
    requires k <= e && BodyEnd(s[k..]) == Some(e - k)
    ensures e < |s| && TagAt(s) == Some(Tag(p == 2, s[p..k], s[k..e], e + 1))
  {
    hide BodyEnd, Run;
  }

  /** `s` starts with a tag: its name from `p` to `k`, its `>` at `e`. */
  predicate HasTagParts(s: string, p: nat, k: nat, e: nat) {
    && p < k <= e < |s|
    && IsTagName(s[p..k]) && !IsTagNameChar(s[k]) && BodyEnd(s[k..]) == Some(e - k)
  }

  lemma NameAndRest(s: string, p: nat, k: nat)
    requires p <= k <= |s|
    ensures s[p..] == s[p..k] + s[k..]
  {
  }

  lemma TagAtParts(s: string, p: nat, k: nat, e: nat)
    requires StartsTag(s, p)
    requires HasTagParts(s, p, k, e)
    ensures TagAt(s) == Some(Tag(p == 2, s[p..k], s[k..e], e + 1))
  {
    hide IsTagName, TagAt, BodyEnd, Run;
    NameAndRest(s, p, k);
    TagNameHead(s[p..k]);
    NameRun(s[p..k], s[k..]);
    TagAtIs(s, p, k, e);
  }

  lemma {:induction false} TagPartsRendered(s: string, p: nat, k: nat, e: nat, name: string, body: string, tail: string)
    requires p < k <= e < |s|
    requires s[p..k] == name && s[k..e] == body && s[k..] == tail && s[k] == tail[0]
    requires IsTagName(name) && BodyEnd(tail) == Some(|body|) && !IsTagNameChar(tail[0])
    ensures HasTagParts(s, p, k, e)
  {
    hide BodyEnd, IsTagName, IsTagNameChar;
  }

  /** A printed tag is scanned as that tag, whatever follows its `>`. */
  lemma {:induction false} TagAtRendered(s: string, closing: bool, name: string, body: string, t: string)
    requires s == Lead(closing) + name + body + t
    requires IsTagName(name)
    requires BodyEnd(body + t) == Some(|body|)
    requires body == "" || !IsTagNameChar(body[0])
    ensures TagAt(s) == Some(Tag(closing, name, body, |Lead(closing)| + |name| + |body| + 1))
  {
    hide HasTagParts, StartsTag, BodyEnd, TagAt, Lead, IsTagName;
    var p := |Lead(closing)|;
    var k := p + |name|;
    var e := k + |body|;
    assert HasTagParts(s, p, k, e) by {
      TagNameHead(name);
      TagSlices(s, Lead(closing), name, body, t, k, e);
      TagPartsRendered(s, p, k, e, name, body, body + t);
    }
    assert TagAt(s) == Some(Tag(p == 2, s[p..k], s[k..e], e + 1)) by {
      TagNameHead(name);
      TagStart(s, closing, name, body, t);
      TagAtParts(s, p, k, e);
    }
    TagSlices(s, Lead(closing), name, body, t, k, e);
  }

  lemma TagAtStart(s: string)
    requires TagAt(s).Some?
    ensures |s| > 2 && s[0] == '<' && (IsLetter(s[1]) || s[1] == '/')
    ensures s[1] != '!' && s[1] != '?'
  {
    hide BodyEnd, Run;
  }

  lemma NoComment(s: string)
    requires |s| > 1 && s[1] != '!'
    ensures !StartsWith(s, "<!--")
  {
    assert |s| >= 4 ==> s[..4][1] == s[1];
  }

  lemma MarkupIsTag(s: string, t: Tag)
    requires TagAt(s) == Some(t)
    ensures s != "" && s[0] == '<' && MarkupAt(s) == TagMarkup(s, t)
  {
    hide TagAt, TagMarkup, Find, IndexOf, Chars, IsLetter;
    TagAtStart(s);
    NoComment(s);
    hide StartsWith;
  }

  lemma {:induction false} BodyEndHere(t: string)
    requires t != "" && t[0] == '>'
    ensures BodyEnd(t) == Some(0)
  {
  }

  lemma {:induction false} RenderedHead(raws: seq<RawAttr>)
    ensures RenderRaws(raws) == "" || !IsTagNameChar(RenderRaws(raws)[0])
  {
  }

  /** The text of a tag with printed attributes. */
  function TagText(closing: bool, name: string, raws: seq<RawAttr>): (s: string)
    ensures |s| >= 2 && s[0] == '<' && |s| == |Lead(closing)| + |name| + |RenderRaws(raws)| + 1
  {
    Lead(closing) + name + RenderRaws(raws) + ">"
  }

  function PrintedTag(closing: bool, name: string, raws: seq<RawAttr>): Tag {
    Tag(closing, name, RenderRaws(raws), |TagText(closing, name, raws)|)
  }

  lemma TagAtText(closing: bool, name: string, raws: seq<RawAttr>, s: string)
    requires IsTagName(name) && ArePrintable(raws)
    ensures TagAt(TagText(closing, name, raws) + s) == Some(PrintedTag(closing, name, raws))
  {
    hide BodyEnd, RenderRaws, IsTagName, TagAt;
    var body, t := RenderRaws(raws), ">" + s;
    BodyEndRendered(raws, t);
    BodyEndHere(t);
    RenderedHead(raws);
    var all := TagText(closing, name, raws) + s;
    assert all == Lead(closing) + name + body + t;
    TagAtRendered(all, closing, name, body, t);
  }

  /** The attributes a token prints. */
  function TokenRaws(t: Token): seq<RawAttr>
    requires !t.Chr?
  {
    if t.Open? then EmittedRaws(t.name, t.attrs) else []
  }

  lemma TokenText(t: Token)
    requires IsClean(t) && !t.Chr?
    ensures RenderToken(t) == TagText(t.Close?, t.name, TokenRaws(t))
    ensures ArePrintable(TokenRaws(t))
  {
    match t {
      case Open(name, attrs) => EmittedPrintable(name, attrs, {});
      case Close(_) =>
    }
  }

  /** A printed tag token reads back as that token. */
  lemma {:induction false} ReadBackTag(t: Token, s: string)
    requires IsClean(t) && !t.Chr?
    ensures Lex(RenderToken(t) + s) == [t] + Lex(s)
  {
    hide Lex, TagAt, RenderToken, TagMarkup, IsTagName;
    var raws, all := TokenRaws(t), RenderToken(t) + s;
    var tag := PrintedTag(t.Close?, t.name, raws);
    TokenText(t);
    TagAtText(t.Close?, t.name, raws, s);
    MarkupIsTag(all, tag);
    TagMarkupOf(all, tag, t);
    LexMarkup(all);
    assert all[tag.length..] == s;
  }

  lemma TagMarkupOf(s: string, tag: Tag, t: Token)
    requires IsClean(t) && !t.Chr?
    requires TagAt(s) == Some(tag) && tag == PrintedTag(t.Close?, t.name, TokenRaws(t))
    ensures TagMarkup(s, tag) == Markup([t], tag.length)
  {
    if t.Open? {
      TokenText(t);
      ScanRendered(TokenRaws(t));
      KeepAttrsAgain(t.name, t.attrs, if t.name == "a" && HasHref(t.attrs) then LINK_RAWS else [], {});
    }
  }

  lemma {:induction false} ReadBackChr(t: Token, s: string)
    requires IsClean(t) && t.Chr?
    ensures Lex(RenderToken(t) + s) == [t] + Lex(s)
  {
    assert ([t.c] + s)[1..] == s;
    assert TextTokens(t.c) == [t];
    hide MarkupAt;
  }

  /** Rendering clean tokens and scanning the text gives the same tokens. */
  lemma {:induction false} LexRender(ts: seq<Token>)
    requires AreClean(ts)
    ensures Lex(Render(ts)) == ts
  {
    if ts != [] {
      var s := Render(ts[1..]);
      LexRender(ts[1..]);
      if ts[0].Chr? {
        ReadBackChr(ts[0], s);
      } else {
        ReadBackTag(ts[0], s);
      }
      hide Lex, RenderToken, IsClean;
    }
  }

  // ---- Main results

  /** The output scans to exactly the tokens emitted; they are clean and
      well-nested, and no prefix closes more than it opened. */
  lemma {:induction false} SanitizedReadsBack(html: string)
    ensures var ts := Lex(Sanitized(html));
      && Render(ts) == Sanitized(html)
      && ts == Balance(Lex(html), [])
      && AreClean(ts)
      && Nest(ts, []) == Some([])
  {
    LexClean(html);
    BalanceClean(Lex(html), []);
    BalanceNests(Lex(html), []);
    LexRender(Balance(Lex(html), []));
  }

  /** Sanitizing a second time changes nothing, for every input. */
  lemma SanitizeIdempotent(html: string)
    ensures Sanitized(Sanitized(html)) == Sanitized(html)
  {
    SanitizedReadsBack(html);
    BalanceNested(Lex(Sanitized(html)), []);
  }

  /** The texts left alone are exactly the printed well-nested clean tokens. */
  lemma FixedPoints(html: string)
    ensures Sanitized(html) == html
       <==> exists ts :: AreClean(ts) && Nest(ts, []) == Some([]) && html == Render(ts)
  {
    if Sanitized(html) == html {
      SanitizedReadsBack(html);
      assert html == Render(Lex(html));
    }
    if ts :| AreClean(ts) && Nest(ts, []) == Some([]) && html == Render(ts) {
      LexRender(ts);
      BalanceNested(ts, []);
    }
  }

  // ---- An independent scan for tags

  /** Every tag of a text, allowed or not: at each `<`, the tag there if any. */
  function TagsOf(s: string): seq<Tag>
    decreases |s|
  {
    if s == "" then []
    else if TagAt(s).Some? then [TagAt(s).value] + TagsOf(s[TagAt(s).value.length..])
    else TagsOf(s[1..])
  }

  function TokenTags(ts: seq<Token>): seq<Tag> {
    if ts == [] then []
    else if ts[0].Chr? then TokenTags(ts[1..])
    else [PrintedTag(ts[0].Close?, ts[0].name, TokenRaws(ts[0]))] + TokenTags(ts[1..])
  }

  lemma {:induction false} TagsOfTag(closing: bool, name: string, raws: seq<RawAttr>, s: string)
    requires IsTagName(name) && ArePrintable(raws)
    ensures TagsOf(TagText(closing, name, raws) + s) == [PrintedTag(closing, name, raws)] + TagsOf(s)
  {
    TagAtText(closing, name, raws, s);
    assert (TagText(closing, name, raws) + s)[|TagText(closing, name, raws)|..] == s;
  }

  lemma {:induction false} TagsOfChars(t: string, s: string)
    requires '<' !in t
    ensures TagsOf(t + s) == TagsOf(s)
  {
    if t == "" {
      assert t + s == s;
    } else {
      assert (t + s)[1..] == t[1..] + s;
      assert t == [t[0]] + t[1..];
      TagsOfChars(t[1..], s);
    }
  }

  lemma TokenTagsOne(t: Token)
    ensures TokenTags([t]) == if t.Chr? then [] else [PrintedTag(t.Close?, t.name, TokenRaws(t))]
  {
    hide PrintedTag, TokenRaws;
    assert [t][1..] == [];
  }

  lemma CleanName(t: Token)
    requires IsClean(t)
    ensures if t.Chr? then t.c != '<' && t.c != '>' && RenderToken(t) == [t.c] else IsTagName(t.name)
  {
    hide IsTagName;
  }

  lemma {:induction false} TagsOfToken(t: Token, s: string)
    requires IsClean(t)
    ensures TagsOf(RenderToken(t) + s) == TokenTags([t]) + TagsOf(s)
  {
    hide *;
    CleanName(t);
    TokenTagsOne(t);
    if t.Chr? {
      assert [] + TagsOf(s) == TagsOf(s);
      TagsOfChars([t.c], s);
    } else {
      TokenText(t);
      TagsOfTag(t.Close?, t.name, TokenRaws(t), s);
    }
  }

  lemma NoTokenTags()
    ensures TokenTags([]) == []
  {
  }

  lemma {:induction false} TokenTagsCons(ts: seq<Token>)
    ensures TokenTags(ts) == if ts == [] then [] else TokenTags([ts[0]]) + TokenTags(ts[1..])
  {
    hide PrintedTag, TokenRaws;
    if ts != [] {
      var one := [ts[0]];
      assert one[0] == ts[0] && one[1..] == [];
      NoTokenTags();
    }
  }

  /** The tags of printed clean tokens are those tokens and no other. */
  lemma {:induction false} TagsOfRender(ts: seq<Token>, s: string)
    requires AreClean(ts)
    ensures TagsOf(Render(ts) + s) == TokenTags(ts) + TagsOf(s)
  {
    hide TagsOf, RenderToken, IsClean, TokenTags;
    if ts == [] {
      TokenTagsCons(ts);
      assert Render(ts) + s == s;
    } else {
      var r := Render(ts[1..]) + s;
      assert Render(ts) + s == RenderToken(ts[0]) + r;
      TagsOfToken(ts[0], r);
      TagsOfRender(ts[1..], s);
      TokenTagsCons(ts);
    }
  }

  /** An attribute the output may carry: allowed, with a checked value, or the
      link pair. */
  predicate IsAllowedAttr(tag: string, a: RawAttr) {
    || (tag == "a" && a in LINK_RAWS)
    || (&& a.name in ALLOWED_ATTRS
        && (a.name in URL_ATTRS ==> IsSafeUrl(DecodeEntities(a.raw), a.name, tag))
        && (a.name == "style" ==> IsSafeStyle(DecodeEntities(a.raw))))
  }

  predicate IsAllowedTag(t: Tag) {
    && IsAllowed(t.name) && !IsDropped(t.name)
    && (t.closing ==> t.attrs == "")
    && forall i | 0 <= i < |ScanAttrs(t.attrs)| :: IsAllowedAttr(t.name, ScanAttrs(t.attrs)[i])
  }

  lemma {:induction false} KeptAllowed(tag: string, attrs: seq<Attr>, seen: set<string>)
    requires AreKept(tag, attrs, seen)
    ensures forall i | 0 <= i < |attrs| :: IsAllowedAttr(tag, Escaped(attrs)[i])
  {
    hide KeepValue, DecodeEntities, EscapeAttr, IsSafeUrl, IsSafeStyle;
    if attrs != [] {
      DecodeEscapeAttr(attrs[0].value);
      KeptAllowed(tag, attrs[1..], seen + {attrs[0].name});
      assert forall i | 0 < i < |attrs| :: Escaped(attrs)[i] == Escaped(attrs[1..])[i - 1];
      KeptUrl(tag, attrs[0]);
    }
  }

  lemma KeptUrl(tag: string, a: Attr)
    requires KeepValue(tag, a.name, a.value) == Some(a.value)
    ensures a.name in URL_ATTRS ==> IsSafeUrl(a.value, a.name, tag)
    ensures a.name == "style" ==> IsSafeStyle(a.value)
  {
  }

  lemma PrintedTagAllowed(t: Token)
    requires IsClean(t) && !t.Chr?
    ensures IsAllowedTag(PrintedTag(t.Close?, t.name, TokenRaws(t)))
  {
    TokenText(t);
    ScanRendered(TokenRaws(t));
    if t.Open? {
      KeptAllowed(t.name, t.attrs, {});
    }
  }

  lemma {:induction false} TokenTagsAllowed(ts: seq<Token>)
    requires AreClean(ts)
    ensures forall i | 0 <= i < |TokenTags(ts)| :: IsAllowedTag(TokenTags(ts)[i])
  {
    if ts != [] {
      TokenTagsAllowed(ts[1..]);
      if !ts[0].Chr? {
        PrintedTagAllowed(ts[0]);
      }
    }
  }

  /** No tag and no attribute outside the allow lists survives, and every URL
      and style that does has passed its check. */
  lemma SanitizedTagsAllowed(html: string)
    ensures forall i | 0 <= i < |TagsOf(Sanitized(html))| :: IsAllowedTag(TagsOf(Sanitized(html))[i])
  {
    SanitizedReadsBack(html);
    var ts := Lex(Sanitized(html));
    TagsOfRender(ts, "");
    assert Render(ts) + "" == Sanitized(html);
    assert TokenTags(ts) + [] == TokenTags(ts);
    TokenTagsAllowed(ts);
  }
}
