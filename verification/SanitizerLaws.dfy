/** What the sanitizer removes and what it keeps, as laws about HTML texts
    (`sanitizeQuotedHtml` of `shared/quoted-html.ts`). */
module SanitizerLaws {
  import opened Strings
  import opened Attributes
  import opened Sanitizer
  import opened SanitizerProofs

  // ---- Parts of a text

  const REMOVED: set<string> := {
    "applet", "audio", "base", "button", "canvas", "datalist", "embed", "frame", "frameset",
    "head", "iframe", "input", "link", "map", "math", "meta", "noembed", "noframes", "noscript",
    "object", "option", "optgroup", "plaintext", "script", "select", "style", "svg", "template",
    "textarea", "title", "video", "xmp"
  }

  /** Removed elements that swallow the rest when nothing closes them. */
  const SWALLOWING: set<string> := {
    "iframe", "noembed", "noframes", "noscript", "plaintext", "script", "style", "textarea",
    "title", "xmp"
  }

  const KEPT: set<string> := {
    "a", "abbr", "address", "article", "aside", "b", "bdi", "bdo", "big", "blockquote", "br",
    "caption", "center", "cite", "code", "col", "colgroup", "dd", "del", "dfn", "div", "dl",
    "dt", "em", "figcaption", "figure", "font", "footer", "h1", "h2", "h3", "h4", "h5", "h6",
    "header", "hr", "i", "img", "ins", "kbd", "li", "main", "mark", "nav", "ol", "p", "pre",
    "q", "s", "samp", "section", "small", "span", "strike", "strong", "sub", "sup", "table",
    "tbody", "td", "tfoot", "th", "thead", "tr", "tt", "u", "ul", "var", "wbr"
  }

  /** A complete part of an HTML text. `Removed` is an element whose opening tag
      is in `REMOVED`, up to its first closing tag. */
  datatype Part =
    | Plain(text: string)
    | Comment(text: string)
    | Declaration(mark: char, text: string)
    | Mark(closing: bool, name: string, body: string)
    | Removed(name: string, body: string, content: string, end: string, blank: string)

  function OpenText(name: string, body: string): string {
    "<" + name + body + ">"
  }

  function EndText(name: string, blank: string): string {
    "</" + name + blank + ">"
  }

  function HtmlOf(p: Part): string {
    match p
    case Plain(text) => text
    case Comment(text) => "<!--" + text + "-->"
    case Declaration(mark, text) => "<" + [mark] + text + ">"
    case Mark(closing, name, body) => Lead(closing) + name + body + ">"
    case Removed(name, body, content, end, blank) => OpenText(name, body) + content + EndText(end, blank)
  }

  function HtmlOfAll(ps: seq<Part>): string {
    if ps == [] then "" else HtmlOf(ps[0]) + HtmlOfAll(ps[1..])
  }

  predicate IsNameChar(c: char) {
    'a' <= c <= 'z' || 'A' <= c <= 'Z' || '0' <= c <= '9' || c == ':' || c == '-'
  }

  predicate IsName(name: string) {
    && name != "" && ('a' <= name[0] <= 'z' || 'A' <= name[0] <= 'Z')
    && forall i | 0 <= i < |name| :: IsNameChar(name[i])
  }

  /** What may stand between a tag's name and its `>`: every quote is closed, and
      `>` only stands in quotes. */
  predicate IsQuotedBody(b: string)
    decreases |b|
  {
    if b == "" then true
    else if b[0] == '>' then false
    else if b[0] == '"' || b[0] == '\'' then
      match IndexOf(b[1..], b[0])
      case None => false
      case Some(k) => IsQuotedBody(b[k + 2..])
    else IsQuotedBody(b[1..])
  }

  predicate IsBody(b: string) {
    IsQuotedBody(b) && (b == "" || !IsNameChar(b[0]))
  }

  /** `/` at the end of a tag's body, white space aside. */
  predicate IsSelfClosing(b: string) {
    exists k | 0 <= k < |b| :: b[k] == '/' && AllChars(b[k + 1..], IsSpace)
  }

  /** A closing tag of `name`, which is in lower case. */
  predicate IsEnd(t: string, name: string) {
    && |t| >= |name| + 3 && t[..2] == "</" && Fold(t[2..2 + |name|]) == name
    && AllChars(t[2 + |name|..|t| - 1], IsSpace) && t[|t| - 1] == '>'
  }

  predicate HasEnd(s: string, name: string) {
    exists i, j | 0 <= i <= j <= |s| :: IsEnd(s[i..j], name)
  }

  predicate HasCommentEnd(s: string) {
    exists i | 0 <= i <= |s| :: StartsWith(s[i..], "-->")
  }

  predicate IsPart(p: Part) {
    match p
    case Plain(text) => '<' !in text
    case Comment(text) => !HasCommentEnd(text)
    case Declaration(mark, text) =>
      (mark == '!' || mark == '?') && '>' !in text && !(mark == '!' && StartsWith(text, "--"))
    case Mark(closing, name, body) =>
      IsName(name) && IsBody(body) && (Fold(name) in REMOVED ==> closing || IsSelfClosing(body))
    case Removed(name, body, content, end, blank) =>
      && IsName(name) && IsBody(body) && Fold(name) in REMOVED && !IsSelfClosing(body)
      && !HasEnd(content, Fold(name)) && Fold(end) == Fold(name) && AllChars(blank, IsSpace)
  }

  predicate AreParts(ps: seq<Part>) {
    forall i | 0 <= i < |ps| :: IsPart(ps[i])
  }

  // ---- What is left of them

  /** Text with its `>` escaped. */
  function Escaped(text: string): string {
    if text == "" then "" else (if text[0] == '>' then "&gt;" else [text[0]]) + Escaped(text[1..])
  }

  function Left(p: Part): string {
    match p
    case Plain(text) => Escaped(text)
    case Comment(_) => ""
    case Declaration(_, _) => ""
    case Mark(closing, name, body) =>
      var n := Fold(name);
      if n !in KEPT || n in REMOVED then "" else if closing then "</" + n + ">" else "<" + n + CleanedAttributes(n, body) + ">"
    case Removed(_, _, _, _, _) => ""
  }

  function LeftOfAll(ps: seq<Part>): string {
    if ps == [] then "" else Left(ps[0]) + LeftOfAll(ps[1..])
  }

  // ---- Tags

  predicate IsQuote(c: char) {
    c == '"' || c == '\''
  }

  function InQuotes(q: char, raw: string, t: string): (s: string)
    ensures |s| == |raw| + 2 + |t| && s[0] == q && s[1..][..|raw|] == raw && s[1..][|raw|] == q && s[|raw| + 2..] == t
  {
    [q] + raw + [q] + t
  }

  lemma QuoteSplit(s: string)
    requires s != "" && IndexOf(s[1..], s[0]).Some?
    ensures var k := IndexOf(s[1..], s[0]).value;
      s == InQuotes(s[0], s[1..][..k], s[k + 2..]) && s[0] !in s[1..][..k]
  {
  }

  lemma {:induction false} BodyEndInQuotes(q: char, raw: string, t: string)
    requires IsQuote(q) && q !in raw
    ensures BodyEnd(InQuotes(q, raw, t)) == Shift(BodyEnd(t), |raw| + 2)
    ensures BodyEnd(t) == None ==> BodyEnd(InQuotes(q, raw, t)) == None
    ensures BodyEnd(t).Some? ==> BodyEnd(InQuotes(q, raw, t)) == Some(BodyEnd(t).value + |raw| + 2)
    ensures IsQuotedBody(InQuotes(q, raw, t)) == IsQuotedBody(t)
  {
    hide InQuotes;
    IndexOfIs(InQuotes(q, raw, t)[1..], q, |raw|);
  }

  lemma InQuotesConcat(q: char, raw: string, t: string, r: string)
    ensures InQuotes(q, raw, t) + r == InQuotes(q, raw, t + r)
  {
  }

  lemma {:induction false} BodyEndChar(c: char, t: string)
    requires !IsQuote(c) && c != '>'
    ensures BodyEnd(t) == None ==> BodyEnd([c] + t) == None
    ensures BodyEnd(t).Some? ==> BodyEnd([c] + t) == Some(BodyEnd(t).value + 1)
    ensures BodyEnd([c] + t) == Shift(BodyEnd(t), 1) && IsQuotedBody([c] + t) == IsQuotedBody(t)
  {
    assert ([c] + t)[1..] == t;
  }

  lemma {:induction false} BodyHeadChar(b: string)
    requires IsQuotedBody(b) && b != ""
    ensures b[0] != '>' && (IsQuote(b[0]) ==> IndexOf(b[1..], b[0]).Some?)
  {
  }

  lemma {:induction false} BodyEnds(b: string, r: string)
    requires IsQuotedBody(b)
    ensures BodyEnd(b + (">" + r)) == Some(|b|)
    decreases |b|
  {
    hide BodyEnd, IsQuotedBody, InQuotes;
    if b == "" {
      assert b + (">" + r) == ">" + r;
      BodyEndHere(">" + r);
    } else {
      BodyHeadChar(b);
      if IsQuote(b[0]) {
        QuoteSplit(b);
        var k := IndexOf(b[1..], b[0]).value;
        hide IndexOf;
        var q, raw, t := b[0], b[1..][..k], b[k + 2..];
        BodyEndInQuotes(q, raw, t);
        BodyEnds(t, r);
        InQuotesConcat(q, raw, t, ">" + r);
        BodyEndInQuotes(q, raw, t + (">" + r));
      } else {
        assert b == [b[0]] + b[1..];
        BodyEndChar(b[0], b[1..]);
        BodyEnds(b[1..], r);
        assert b + (">" + r) == [b[0]] + (b[1..] + (">" + r));
        BodyEndChar(b[0], b[1..] + (">" + r));
      }
    }
  }

  lemma NothingQuoted()
    ensures IsQuotedBody("")
  {
  }

  lemma {:induction false} NoBodyEnd(s: string)
    requires BodyEnd(s).Some?
    ensures s != "" && (s[0] == '>' ==> BodyEnd(s) == Some(0)) && (IsQuote(s[0]) ==> IndexOf(s[1..], s[0]).Some?)
  {
  }

  lemma InQuotesPrefix(q: char, raw: string, t: string, n: nat)
    requires n <= |t|
    ensures InQuotes(q, raw, t)[..|raw| + 2 + n] == InQuotes(q, raw, t[..n])
  {
  }

  lemma QuoteParts(s: string) returns (raw: string, t: string)
    requires s != "" && IndexOf(s[1..], s[0]).Some?
    ensures s == InQuotes(s[0], raw, t) && s[0] !in raw && |t| < |s|
  {
    QuoteSplit(s);
    var k := IndexOf(s[1..], s[0]).value;
    hide InQuotes;
    raw, t := s[1..][..k], s[k + 2..];
  }

  lemma {:induction false} QuotedBodyIs(s: string)
    requires BodyEnd(s).Some?
    ensures IsQuotedBody(s[..BodyEnd(s).value])
    decreases |s|
  {
    hide *;
    NoBodyEnd(s);
    if s[0] == '>' {
      NothingQuoted();
      assert s[..0] == "";
    } else if IsQuote(s[0]) {
      var q := s[0];
      var raw, t := QuoteParts(s);
      BodyEndInQuotes(q, raw, t);
      QuotedBodyIs(t);
      InQuotesPrefix(q, raw, t, BodyEnd(t).value);
      BodyEndInQuotes(q, raw, t[..BodyEnd(t).value]);
    } else {
      var t := s[1..];
      assert s == [s[0]] + t;
      BodyEndChar(s[0], t);
      QuotedBodyIs(t);
      var n := BodyEnd(t).value;
      assert s[..n + 1] == [s[0]] + t[..n];
      BodyEndChar(s[0], t[..n]);
    }
  }

  lemma NameChars(name: string)
    requires IsName(name)
    ensures name != "" && IsLetter(name[0]) && AllChars(name, IsTagNameChar) && Lower(name) == Fold(name) && '<' !in Fold(name)
  {
  }

  lemma BodyHead(body: string, t: string)
    requires IsBody(body) && t != "" && t[0] == '>'
    ensures !IsTagNameChar((body + t)[0])
  {
    hide IsQuotedBody;
  }

  lemma {:induction false} BodyScanned(body: string, r: string)
    requires IsBody(body)
    ensures BodyEnd(body + (">" + r)) == Some(|body|)
  {
    hide BodyEnd, IsQuotedBody;
    BodyEnds(body, r);
  }

  /** A tag as written is scanned as that tag. */
  lemma TagScanned(closing: bool, name: string, body: string, r: string)
    requires IsName(name) && IsBody(body)
    ensures TagAt(Lead(closing) + name + body + (">" + r))
         == Some(Tag(closing, name, body, |Lead(closing)| + |name| + |body| + 1))
  {
    hide *;
    var t := ">" + r;
    var s := Lead(closing) + name + body + t;
    var p, k, e := |Lead(closing)|, |Lead(closing)| + |name|, |Lead(closing)| + |name| + |body|;
    NameChars(name);
    BodyScanned(body, r);
    BodyHead(body, t);
    TagSlices(s, Lead(closing), name, body, t, k, e);
    TagStart(s, closing, name, body, t);
    NameAndRest(s, p, k);
    NameScanned(s, p, name, body + t);
    TagHead(s, p, name);
    TagAtIs(s, p, k, e);
  }

  lemma TagHead(s: string, p: nat, name: string)
    requires StartsTag(s, p) && p + |name| <= |s| && s[p..p + |name|] == name && name != "" && IsLetter(name[0])
    ensures |s| >= 2 && s[0] == '<' && p == (if s[1] == '/' then 2 else 1) && p < |s| && IsLetter(s[p])
  {
    assert s[p] == s[p..p + |name|][0];
  }

  lemma NameScanned(s: string, p: nat, name: string, t: string)
    requires p <= |s| && s[p..] == name + t && t != ""
    requires AllChars(name, IsTagNameChar) && !IsTagNameChar(t[0])
    ensures Run(s[p..], IsTagNameChar) == |name|
  {
    RunIs(name + t, IsTagNameChar, |name|);
  }

  // ---- Where a removed element ends

  lemma EndAt(s: string, name: string)
    ensures CloseAt(s, name).Some? ==> IsEnd(s[..CloseAt(s, name).value], name)
  {
    if CloseAt(s, name).Some? {
      var n := CloseAt(s, name).value;
      var t, k := s[..n], 2 + |name|;
      assert t[..2] == s[..2] && t[2..k] == s[2..][..|name|];
      assert t[k..n - 1] == s[k..][..n - 1 - k];
    }
  }

  lemma EndFound(e: string, name: string, r: string)
    requires IsEnd(e, name)
    ensures CloseAt(e + r, name) == Some(|e|)
  {
    var s, k := e + r, 2 + |name|;
    assert s[..2] == e[..2] && s[2..][..|name|] == e[2..k];
    var m := |e| - 1 - k;
    var t := s[k..];
    assert forall i | 0 <= i < m :: t[i] == e[k..|e| - 1][i];
    assert t[m] == '>';
    RunIs(t, IsSpace, m);
  }

  lemma EndHere(s: string, name: string)
    requires CloseAt(s, name).Some?
    ensures HasEnd(s, name)
  {
    EndAt(s, name);
    hide CloseAt, IsEnd;
    var n := CloseAt(s, name).value;
    assert s[0..n] == s[..n];
  }

  lemma EndWithin(w: string, e: string, n: nat, name: string)
    requires n <= |w| && IsEnd((w + e)[..n], name)
    ensures HasEnd(w, name)
  {
    hide IsEnd;
    assert w[0..n] == (w + e)[..n];
  }

  /** No end of an element starts before text that begins with `<`, unless it
      is there without that text. */
  lemma EndNotAcross(w: string, e: string, name: string)
    requires w != "" && '<' !in name && e != "" && e[0] == '<'
    requires !HasEnd(w, name)
    ensures CloseAt(w + e, name).None?
  {
    hide HasEnd;
    var s := w + e;
    if CloseAt(s, name).Some? {
      EndAt(s, name);
      var n := CloseAt(s, name).value;
      hide CloseAt;
      if n <= |w| {
        EndWithin(w, e, n, name);
      } else {
        NoBracketIn(s[..n], name, |w|);
      }
    }
  }

  lemma NoBracketIn(t: string, name: string, i: nat)
    requires IsEnd(t, name) && '<' !in name && 0 < i < |t|
    ensures t[i] != '<'
  {
    var k := 2 + |name|;
    if i == 1 {
      assert t[..2][1] == '/';
    } else if i < k {
      assert Fold(t[2..k])[i - 2] == FoldChar(t[i]) && Fold(t[2..k])[i - 2] in name;
    } else if i < |t| - 1 {
      assert t[i] == t[k..|t| - 1][i - k];
    }
  }

  lemma TailEnd(w: string, name: string)
    requires w != "" && HasEnd(w[1..], name)
    ensures HasEnd(w, name)
  {
    hide IsEnd;
    var i, j :| 0 <= i <= j <= |w[1..]| && IsEnd(w[1..][i..j], name);
    assert w[1..][i..j] == w[i + 1..j + 1];
  }

  lemma {:induction false} AfterCloseStep(s: string, name: string)
    ensures AfterClose(s, name) ==
      if CloseAt(s, name).Some? then CloseAt(s, name)
      else if s == "" then None
      else Shift(AfterClose(s[1..], name), 1)
  {
    hide CloseAt;
  }

  /** The first closing tag is the one after text that has none. */
  lemma {:induction false} FirstEnd(w: string, e: string, r: string, name: string)
    requires !HasEnd(w, name) && IsEnd(e, name) && '<' !in name
    ensures AfterClose(w + (e + r), name) == Some(|w| + |e|)
  {
    hide CloseAt, AfterClose, HasEnd;
    AfterCloseStep(w + (e + r), name);
    if w == "" {
      assert w + (e + r) == e + r;
      EndFound(e, name, r);
    } else {
      assert e[0] == '<' by { assert e[..2][0] == '<'; }
      EndNotAcross(w, e + r, name);
      TailConcat(w, e + r);
      if HasEnd(w[1..], name) {
        TailEnd(w, name);
      }
      FirstEnd(w[1..], e, r, name);
    }
  }

  lemma {:induction false} NoEnd(w: string, name: string)
    requires !HasEnd(w, name)
    ensures AfterClose(w, name).None?
  {
    hide CloseAt, AfterClose, HasEnd;
    AfterCloseStep(w, name);
    if CloseAt(w, name).Some? {
      EndHere(w, name);
    } else if w != "" {
      if HasEnd(w[1..], name) {
        TailEnd(w, name);
      }
      NoEnd(w[1..], name);
    }
  }

  lemma SlashAtEnd(b: string)
    ensures EndsWithSlash(b) <==> IsSelfClosing(b)
  {
    var k := TrimEndLength(b);
    if EndsWithSlash(b) {
      assert forall i | 0 <= i < |b| - k :: b[k..][i] == b[k + i];
      assert b[k - 1] == '/' && AllChars(b[k - 1 + 1..], IsSpace);
    }
    if j :| 0 <= j < |b| && b[j] == '/' && AllChars(b[j + 1..], IsSpace) {
      assert forall i | j < i < |b| :: b[i] == b[j + 1..][i - j - 1];
      assert k == j + 1;
    }
  }

  // ---- How each part is scanned

  lemma {:induction false} Skipped(s: string, head: string, r: string)
    requires s == head + r && head != "" && s[0] == '<' && MarkupAt(s) == Markup([], |head|)
    ensures Lex(s) == Lex(r)
  {
    hide Lex, MarkupAt;
    LexMarkup(s);
    assert s[|head|..] == r;
  }

  lemma {:induction false} EscapedIs(text: string)
    ensures Escaped(text) == ReplaceChar(text, '>', "&gt;") && '>' !in Escaped(text)
    ensures '<' !in text ==> '<' !in Escaped(text)
  {
    if text != "" {
      assert text == [text[0]] + text[1..];
      EscapedIs(text[1..]);
    }
  }

  lemma {:induction false} PlainLexed(text: string, r: string)
    requires '<' !in text
    ensures Lex(text + r) == Chars(Escaped(text)) + Lex(r)
    ensures Lex(Escaped(text) + r) == Chars(Escaped(text)) + Lex(r)
  {
    EscapedIs(text);
    LexText(text, r);
    LexText(Escaped(text), r);
    ReplaceCharAbsent(Escaped(text), '>', "&gt;");
    hide Lex, Escaped, ReplaceChar, Chars;
  }

  lemma {:induction false} CommentEnds(w: string, r: string)
    requires !HasCommentEnd(w)
    ensures Find(w + ("-->" + r), "-->") == Some(|w|)
  {
    var s := w + ("-->" + r);
    if w == "" {
      assert s == "-->" + r && s[..3] == "-->";
    } else {
      NoCommentEndHere(w, r);
      TailConcat(w, "-->" + r);
      if HasCommentEnd(w[1..]) {
        TailCommentEnd(w);
      }
      hide HasCommentEnd, StartsWith;
      CommentEnds(w[1..], r);
    }
  }

  lemma TailCommentEnd(w: string)
    requires w != "" && HasCommentEnd(w[1..])
    ensures HasCommentEnd(w)
  {
    hide StartsWith;
    var i :| 0 <= i <= |w[1..]| && StartsWith(w[1..][i..], "-->");
    assert w[1..][i..] == w[i + 1..];
  }

  lemma NoCommentEndHere(w: string, r: string)
    requires w != "" && !HasCommentEnd(w)
    ensures !StartsWith(w + ("-->" + r), "-->")
  {
    var s := w + ("-->" + r);
    assert !StartsWith(w[0..], "-->") && w[0..] == w;
    if |w| >= 3 {
      assert w[..3] == s[..3];
    } else {
      assert s[..3][2] == s[2] == '-';
    }
  }

  lemma {:induction false} CommentLexed(text: string, r: string)
    requires !HasCommentEnd(text)
    ensures Lex("<!--" + text + "-->" + r) == Lex(r)
  {
    var head := "<!--" + text + "-->";
    var s := head + r;
    assert s[..4] == "<!--" && s[4..] == text + ("-->" + r);
    CommentEnds(text, r);
    Skipped(s, head, r);
  }

  lemma {:induction false} DeclarationLexed(mark: char, text: string, r: string)
    requires IsPart(Declaration(mark, text))
    ensures Lex("<" + [mark] + text + ">" + r) == Lex(r)
  {
    var head := "<" + [mark] + text + ">";
    var s := head + r;
    assert s[0] == '<' && s[1] == mark;
    assert !StartsWith(s, "<!--") by { DeclarationIsNoComment(mark, text, r); }
    assert s[|text| + 2] == '>' && s[..|text| + 2] == "<" + [mark] + text;
    IndexOfIs(s, '>', |text| + 2);
    hide StartsWith, IndexOf;
    Skipped(s, head, r);
  }

  lemma DeclarationIsNoComment(mark: char, text: string, r: string)
    requires IsPart(Declaration(mark, text))
    ensures !StartsWith("<" + [mark] + text + ">" + r, "<!--")
  {
    var s := "<" + [mark] + text + ">" + r;
    assert s[1] == mark && (|text| > 0 ==> s[2] == text[0]) && (|text| > 1 ==> s[3] == text[1]);
    assert |text| == 0 ==> s[2] == '>';
    assert |text| == 1 ==> s[3] == '>';
    assert |text| > 1 ==> text[..2] == [text[0], text[1]];
    assert |s| >= 4 ==> s[..4] == [s[0], s[1], s[2], s[3]];
  }

  lemma NamesAlike(name: string)
    ensures name in REMOVED <==> IsDropped(name)
    ensures name in SWALLOWING <==> name in RAW_TEXT
    ensures name in KEPT <==> IsAllowed(name)
  {
  }

  /** The attributes kept of an opening tag. */
  function KeptAttrs(name: string, body: string): seq<Attr> {
    KeepAttrs(name, ScanAttrs(body), {})
  }

  /** What an opening or closing tag yields. */
  function MarkTokens(closing: bool, name: string, body: string): seq<Token> {
    var n := Fold(name);
    if n !in KEPT || n in REMOVED then [] else if closing then [Close(n)] else [Open(n, KeptAttrs(n, body))]
  }

  lemma MarkTagMarkup(s: string, t: Tag)
    requires 0 < t.length <= |s| && IsName(t.name) && IsBody(t.attrs)
    requires Fold(t.name) in REMOVED ==> t.closing || IsSelfClosing(t.attrs)
    ensures TagMarkup(s, t) == Markup(MarkTokens(t.closing, t.name, t.attrs), t.length)
  {
    NameChars(t.name);
    NamesAlike(Fold(t.name));
    SlashAtEnd(t.attrs);
    hide IsDropped, IsAllowed, EndsWithSlash, IsSelfClosing, AfterClose, IsName, IsBody, KeepAttrs, ScanAttrs;
    hide Lower, Fold, REMOVED, KEPT, SWALLOWING;
  }

  lemma MarkText(closing: bool, name: string, body: string, r: string)
    ensures var head := HtmlOf(Mark(closing, name, body));
      && head + r == Lead(closing) + name + body + (">" + r) && (head + r)[|head|..] == r
      && |head| == |Lead(closing)| + |name| + |body| + 1
  {
    hide Lead;
  }

  lemma MarkIs(closing: bool, name: string, body: string)
    requires IsPart(Mark(closing, name, body))
    ensures IsName(name) && IsBody(body) && (Fold(name) in REMOVED ==> closing || IsSelfClosing(body))
  {
  }

  lemma {:induction false} MarkLexed(closing: bool, name: string, body: string, r: string)
    requires IsPart(Mark(closing, name, body))
    ensures Lex(HtmlOf(Mark(closing, name, body)) + r) == MarkTokens(closing, name, body) + Lex(r)
  {
    hide *;
    var head := HtmlOf(Mark(closing, name, body));
    var t := Tag(closing, name, body, |head|);
    MarkIs(closing, name, body);
    MarkText(closing, name, body, r);
    TagScanned(closing, name, body, r);
    MarkTagMarkup(head + r, t);
    MarkupIsTag(head + r, t);
    LexMarkup(head + r);
  }

  /** A tag's tokens are what is left of it, read again. */
  lemma {:induction false} LeftMarkLexed(closing: bool, name: string, body: string, r: string)
    requires IsPart(Mark(closing, name, body))
    ensures Lex(Left(Mark(closing, name, body)) + r) == MarkTokens(closing, name, body) + Lex(r)
  {
    var n := Fold(name);
    if n !in KEPT || n in REMOVED {
      assert "" + r == r && [] + Lex(r) == Lex(r);
    } else {
      NameIsClean(name);
      hide IsTagName, KEPT, REMOVED, IsPart;
      if !closing {
        ScanAttrsScanned(body);
        KeepAttrsKept(n, ScanAttrs(body), {});
      }
      hide KeepAttrs, ScanAttrs, Lex, AreKept;
      ReadBackTag(if closing then Close(n) else Open(n, KeptAttrs(n, body)), r);
    }
  }

  lemma NameIsClean(name: string)
    requires IsName(name) && Fold(name) in KEPT && Fold(name) !in REMOVED
    ensures IsTagName(Fold(name))
  {
    NameChars(name);
    LowerTagName(name);
    NamesAlike(Fold(name));
    hide IsName, KEPT, REMOVED, IsAllowed, IsDropped, Lower, Fold;
  }

  lemma RemovedTagMarkup(s: string, t: Tag)
    requires 0 < t.length <= |s| && IsName(t.name) && IsBody(t.attrs)
    requires Fold(t.name) in REMOVED && !t.closing && !IsSelfClosing(t.attrs)
    ensures TagMarkup(s, t) == Markup([],
      match AfterClose(s[t.length..], Fold(t.name))
      case Some(k) => t.length + k
      case None => if Fold(t.name) in SWALLOWING then |s| else t.length)
  {
    NameChars(t.name);
    NamesAlike(Fold(t.name));
    SlashAtEnd(t.attrs);
    hide IsDropped, IsAllowed, EndsWithSlash, IsSelfClosing, AfterClose, IsName, IsBody, KeepAttrs, ScanAttrs;
    hide Lower, Fold, REMOVED, KEPT, SWALLOWING;
  }

  lemma OpenTextIs(name: string, body: string, r: string)
    ensures var head := OpenText(name, body);
      && head + r == Lead(false) + name + body + (">" + r) && (head + r)[|head|..] == r
      && |head| == |Lead(false)| + |name| + |body| + 1
  {
  }

  lemma {:induction false} RemovedMarkup(name: string, body: string, r: string)
    requires IsName(name) && IsBody(body) && Fold(name) in REMOVED && !IsSelfClosing(body)
    ensures var s := OpenText(name, body) + r;
      s != "" && s[0] == '<' && MarkupAt(s) == Markup([],
        match AfterClose(r, Fold(name))
        case Some(k) => |OpenText(name, body)| + k
        case None => if Fold(name) in SWALLOWING then |s| else |OpenText(name, body)|)
  {
    hide *;
    var head := OpenText(name, body);
    var t := Tag(false, name, body, |head|);
    OpenTextIs(name, body, r);
    TagScanned(false, name, body, r);
    RemovedTagMarkup(head + r, t);
    MarkupIsTag(head + r, t);
  }

  lemma {:induction false} RemovedLexed(p: Part, r: string)
    requires p.Removed? && IsPart(p)
    ensures Lex(HtmlOf(p) + r) == Lex(r)
  {
    var head, w, e := OpenText(p.name, p.body), p.content, EndText(p.end, p.blank);
    NameChars(p.name);
    EndTextIs(p.end, p.blank, Fold(p.name));
    assert HtmlOf(p) + r == head + (w + (e + r));
    hide IsName, IsBody, IsSelfClosing, REMOVED, SWALLOWING, TagAt, MarkupAt, AfterClose, HasEnd, IsEnd;
    FirstEnd(w, e, r, Fold(p.name));
    RemovedMarkup(p.name, p.body, w + (e + r));
    Skipped(head + (w + (e + r)), HtmlOf(p), r);
  }

  lemma EndTextIs(end: string, blank: string, name: string)
    requires Fold(end) == name && AllChars(blank, IsSpace)
    ensures IsEnd(EndText(end, blank), name)
  {
    var t := EndText(end, blank);
    assert t[..2] == "</" && t[2..2 + |end|] == end && t[2 + |end|..|t| - 1] == blank;
  }

  function PartTokens(p: Part): seq<Token> {
    match p
    case Plain(text) => Chars(Escaped(text))
    case Mark(closing, name, body) => MarkTokens(closing, name, body)
    case _ => []
  }

  /** A part is scanned like what is left of it. */
  lemma {:induction false} PartLexed(p: Part, r: string)
    requires IsPart(p)
    ensures Lex(HtmlOf(p) + r) == PartTokens(p) + Lex(r) && Lex(Left(p) + r) == PartTokens(p) + Lex(r)
  {
    hide Lex, MarkTokens, Escaped, Chars, Lead, IsName, IsBody, HasEnd, IsSelfClosing, HasCommentEnd, StartsWith;
    assert "" + r == r && [] + Lex(r) == Lex(r);
    match p {
      case Plain(text) => PlainLexed(text, r);
      case Comment(text) => CommentLexed(text, r);
      case Declaration(mark, text) => DeclarationLexed(mark, text, r);
      case Mark(closing, name, body) =>
        MarkLexed(closing, name, body, r);
        LeftMarkLexed(closing, name, body, r);
      case Removed(_, _, _, _, _) => RemovedLexed(p, r);
    }
  }

  lemma {:induction false} PartsCons(ps: seq<Part>, r: string)
    requires ps != []
    ensures HtmlOfAll(ps) + r == HtmlOf(ps[0]) + (HtmlOfAll(ps[1..]) + r)
    ensures LeftOfAll(ps) + r == Left(ps[0]) + (LeftOfAll(ps[1..]) + r)
    ensures AreParts(ps) ==> IsPart(ps[0]) && AreParts(ps[1..])
  {
    hide HtmlOf, Left, IsPart;
  }

  lemma NoParts(r: string)
    ensures HtmlOfAll([]) + r == r && LeftOfAll([]) + r == r
  {
  }

  lemma {:induction false} PartsLexed(ps: seq<Part>, r: string)
    requires AreParts(ps)
    ensures Lex(HtmlOfAll(ps) + r) == Lex(LeftOfAll(ps) + r)
  {
    hide *;
    if ps == [] {
      NoParts(r);
    } else {
      PartsCons(ps, r);
      PartsLexed(ps[1..], r);
      PartLexed(ps[0], HtmlOfAll(ps[1..]) + r);
      PartLexed(ps[0], LeftOfAll(ps[1..]) + r);
    }
  }

  lemma {:induction false} LexedAlike(a: string, b: string)
    requires Lex(a) == Lex(b)
    ensures Sanitized(a) == Sanitized(b)
  {
    hide Lex, Balance, Render;
  }

  // ---- Main results

  /** Whatever parts a text starts with, only what is left of each of them counts:
      text with `>` escaped and the checked allowed tags; comments, declarations,
      removed elements with their content, and all other tags are nothing. */
  lemma {:induction false} PartsReduce(ps: seq<Part>, r: string)
    requires AreParts(ps)
    ensures Sanitized(HtmlOfAll(ps) + r) == Sanitized(LeftOfAll(ps) + r)
  {
    PartsLexed(ps, r);
    hide Lex, Sanitized;
    LexedAlike(HtmlOfAll(ps) + r, LeftOfAll(ps) + r);
  }

  /** A removed element makes no difference, whatever it holds and whatever is
      around it. */
  lemma {:induction false} ElementRemoved(ps: seq<Part>, name: string, content: string, r: string)
    requires AreParts(ps) && IsName(name) && Fold(name) in REMOVED && !HasEnd(content, Fold(name))
    ensures Sanitized(HtmlOfAll(ps) + ("<" + name + ">" + content + "</" + name + ">" + r)) == Sanitized(HtmlOfAll(ps) + r)
  {
    var p := Removed(name, "", content, name, "");
    assert HtmlOf(p) + r == "<" + name + ">" + content + "</" + name + ">" + r;
    NotSelfClosing();
    hide IsName, HasEnd, REMOVED, Sanitized, HtmlOf;
    PartMakesNoDifference(ps, p, r);
  }

  lemma NotSelfClosing()
    ensures IsBody("") && !IsSelfClosing("")
  {
  }

  lemma {:induction false} PartMakesNoDifference(ps: seq<Part>, p: Part, r: string)
    requires AreParts(ps) && IsPart(p) && Left(p) == ""
    ensures Sanitized(HtmlOfAll(ps) + (HtmlOf(p) + r)) == Sanitized(HtmlOfAll(ps) + r)
  {
    PartLexed(p, r);
    assert "" + r == r;
    PartsThen(ps, HtmlOf(p) + r, r);
    hide Lex, Sanitized, IsPart, Left, HtmlOf;
    LexedAlike(HtmlOfAll(ps) + (HtmlOf(p) + r), HtmlOfAll(ps) + r);
  }

  lemma {:induction false} PartsThen(ps: seq<Part>, a: string, b: string)
    requires AreParts(ps) && Lex(a) == Lex(b)
    ensures Lex(HtmlOfAll(ps) + a) == Lex(HtmlOfAll(ps) + b)
  {
    hide *;
    if ps == [] {
      NoParts(a);
      NoParts(b);
    } else {
      PartsCons(ps, a);
      PartsCons(ps, b);
      PartsThen(ps[1..], a, b);
      PartLexed(ps[0], HtmlOfAll(ps[1..]) + a);
      PartLexed(ps[0], HtmlOfAll(ps[1..]) + b);
    }
  }

  /** Without a closing tag, a removed element takes the rest of the text with it
      when it holds raw text, and only its opening tag goes otherwise. */
  lemma {:induction false} UnclosedElement(ps: seq<Part>, name: string, body: string, w: string)
    requires AreParts(ps) && IsName(name) && IsBody(body) && Fold(name) in REMOVED && !IsSelfClosing(body)
    requires !HasEnd(w, Fold(name))
    ensures Sanitized(HtmlOfAll(ps) + (OpenText(name, body) + w))
         == Sanitized(HtmlOfAll(ps) + if Fold(name) in SWALLOWING then "" else w)
  {
    var s := OpenText(name, body) + w;
    NoEnd(w, Fold(name));
    RemovedMarkup(name, body, w);
    assert s[|OpenText(name, body)|..] == w && s[|s|..] == "";
    hide Lex, MarkupAt, Sanitized, IsName, IsBody, REMOVED, SWALLOWING, IsSelfClosing, HasEnd, AfterClose, OpenText;
    LexMarkup(s);
    var left := if Fold(name) in SWALLOWING then "" else w;
    PartsThen(ps, s, left);
    LexedAlike(HtmlOfAll(ps) + s, HtmlOfAll(ps) + left);
  }

  lemma {:induction false} NoComment(w: string)
    requires !HasCommentEnd(w)
    ensures Find(w, "-->").None?
  {
    assert !StartsWith(w[0..], "-->") && w[0..] == w;
    if w != "" {
      if HasCommentEnd(w[1..]) {
        TailCommentEnd(w);
      }
      hide HasCommentEnd, StartsWith;
      NoComment(w[1..]);
    }
  }

  /** An unclosed comment or declaration takes the rest of the text with it. */
  lemma {:induction false} UnclosedComment(ps: seq<Part>, w: string)
    requires AreParts(ps)
    ensures !HasCommentEnd(w) ==> Sanitized(HtmlOfAll(ps) + ("<!--" + w)) == Sanitized(HtmlOfAll(ps))
    ensures '>' !in w && !StartsWith(w, "--") ==> Sanitized(HtmlOfAll(ps) + ("<!" + w)) == Sanitized(HtmlOfAll(ps))
    ensures '>' !in w ==> Sanitized(HtmlOfAll(ps) + ("<?" + w)) == Sanitized(HtmlOfAll(ps))
  {
    RestTaken(w);
    hide Lex, Sanitized, HasCommentEnd;
    assert HtmlOfAll(ps) + "" == HtmlOfAll(ps);
    if !HasCommentEnd(w) {
      PartsThen(ps, "<!--" + w, "");
      LexedAlike(HtmlOfAll(ps) + ("<!--" + w), HtmlOfAll(ps));
    }
    if '>' !in w && !StartsWith(w, "--") {
      PartsThen(ps, "<!" + w, "");
      LexedAlike(HtmlOfAll(ps) + ("<!" + w), HtmlOfAll(ps));
    }
    if '>' !in w {
      PartsThen(ps, "<?" + w, "");
      LexedAlike(HtmlOfAll(ps) + ("<?" + w), HtmlOfAll(ps));
    }
  }

  lemma {:induction false} AllTaken(s: string)
    requires s != "" && s[0] == '<' && MarkupAt(s) == Markup([], |s|)
    ensures Lex(s) == Lex("")
  {
    hide Lex, MarkupAt;
    LexMarkup(s);
    assert s[|s|..] == "";
  }

  lemma {:induction false} RestTaken(w: string)
    ensures !HasCommentEnd(w) ==> Lex("<!--" + w) == Lex("")
    ensures '>' !in w && !StartsWith(w, "--") ==> Lex("<!" + w) == Lex("")
    ensures '>' !in w ==> Lex("<?" + w) == Lex("")
  {
    hide Lex;
    if !HasCommentEnd(w) {
      NoComment(w);
      var s := "<!--" + w;
      assert s[..4] == "<!--" && s[4..] == w;
      AllTaken(s);
    }
    if '>' !in w {
      NoMarkEnd('?', w);
      assert "<" + ['?'] + w == "<?" + w && "<" + ['!'] + w == "<!" + w;
      if !StartsWith(w, "--") {
        NoMarkEnd('!', w);
      }
    }
  }

  lemma {:induction false} NoMarkEnd(mark: char, w: string)
    requires '>' !in w && (mark == '?' || (mark == '!' && !StartsWith(w, "--")))
    ensures Lex("<" + [mark] + w) == Lex("")
  {
    hide Lex;
    var s := "<" + [mark] + w;
    assert s[0] == '<' && s[1] == mark;
    assert |w| >= 2 ==> w[..2] == [w[0], w[1]] && s[..4] == [s[0], s[1], w[0], w[1]];
    AllTaken(s);
  }

  // ---- A `<` that starts nothing

  /** Some tag starts with `<` and then `r`. */
  ghost predicate StartsSomeTag(r: string) {
    exists closing: bool, name: string, body: string, rest: string ::
      IsTagText(closing, name, body, rest, "<" + r)
  }

  predicate IsTagText(closing: bool, name: string, body: string, rest: string, s: string) {
    IsName(name) && IsBody(body) && s == HtmlOf(Mark(closing, name, body)) + rest
  }

  lemma Recut(s: string, p: nat, k: nat, e: nat)
    requires |s| >= 2 && s[0] == '<' && p == (if s[1] == '/' then 2 else 1) && p <= k <= e < |s| && s[e] == '>'
    ensures s == Lead(p == 2) + s[p..k] + s[k..e] + (">" + s[e + 1..])
  {
    assert s[..p] == Lead(p == 2);
  }

  lemma BodyFound(s: string, k: nat, b: nat)
    requires k <= |s| && BodyEnd(s[k..]) == Some(b) && (k < |s| ==> !IsNameChar(s[k]))
    ensures k + b < |s| && s[k + b] == '>' && IsBody(s[k..k + b])
  {
    QuotedBodyIs(s[k..]);
    hide BodyEnd, IsQuotedBody;
    assert s[k..][..b] == s[k..k + b];
  }

  lemma TagTextIs(closing: bool, name: string, body: string, rest: string, s: string)
    requires IsName(name) && IsBody(body) && s == HtmlOf(Mark(closing, name, body)) + rest
    ensures IsTagText(closing, name, body, rest, s)
  {
    hide HtmlOf;
  }

  lemma TagIsText(s: string)
    requires TagAt(s).Some?
    ensures var t := TagAt(s).value; IsTagText(t.closing, t.name, t.attrs, s[t.length..], s)
  {
    hide *;
    var p, k, b := TagPieces(s);
    BodyFound(s, k, b);
    Recut(s, p, k, k + b);
    MarkText(p == 2, s[p..k], s[k..k + b], s[k + b + 1..]);
    TagTextIs(p == 2, s[p..k], s[k..k + b], s[k + b + 1..], s);
  }

  lemma SomeTag(r: string)
    requires TagAt("<" + r).Some?
    ensures StartsSomeTag(r)
  {
    TagIsText("<" + r);
    hide TagAt, IsTagText;
  }

  lemma TagPieces(s: string) returns (p: nat, k: nat, b: nat)
    requires TagAt(s).Some?
    ensures |s| >= 2 && s[0] == '<' && p == (if s[1] == '/' then 2 else 1)
    ensures p <= k <= |s| && BodyEnd(s[k..]) == Some(b) && IsName(s[p..k]) && (k < |s| ==> !IsNameChar(s[k]))
    ensures k + b < |s| && TagAt(s) == Some(Tag(p == 2, s[p..k], s[k..k + b], k + b + 1))
  {
    hide BodyEnd;
    p := if s[1] == '/' then 2 else 1;
    k := p + Run(s[p..], IsTagNameChar);
    b := BodyEnd(s[k..]).value;
    assert forall i | 0 <= i < k - p :: s[p..k][i] == s[p..][i] && IsTagNameChar(s[p..][i]);
    assert k < |s| ==> s[p..][k - p] == s[k];
  }

  /** A `<` that starts no tag, comment or declaration is escaped. */
  lemma {:induction false} StrayEscaped(ps: seq<Part>, r: string)
    requires AreParts(ps) && !StartsSomeTag(r) && (r != "" ==> r[0] != '!' && r[0] != '?')
    ensures Sanitized(HtmlOfAll(ps) + ("<" + r)) == Sanitized(HtmlOfAll(ps) + ("&lt;" + r))
  {
    hide Lex, Sanitized;
    StrayLexed(r);
    PartsThen(ps, "<" + r, "&lt;" + r);
    LexedAlike(HtmlOfAll(ps) + ("<" + r), HtmlOfAll(ps) + ("&lt;" + r));
  }

  lemma {:induction false} StrayLexed(r: string)
    requires !StartsSomeTag(r) && (r != "" ==> r[0] != '!' && r[0] != '?')
    ensures Lex("<" + r) == Lex("&lt;" + r)
  {
    hide TagAt, StartsSomeTag, Lex;
    var s := "<" + r;
    if TagAt(s).Some? {
      SomeTag(r);
    }
    NoDeclaration(s);
    assert MarkupAt(s) == Markup(Chars("&lt;"), 1);
    LexMarkup(s);
    assert s[1..] == r;
    LexText("&lt;", r);
    ReplaceCharAbsent("&lt;", '>', "&gt;");
  }

  lemma NoDeclaration(s: string)
    requires s != "" && (|s| > 1 ==> s[1] != '!')
    ensures !StartsWith(s, "<!--")
  {
    assert |s| >= 4 ==> s[..4][1] == s[1];
  }

  // ---- The laws cover every text

  ghost predicate StartsPart(s: string) {
    exists p: Part, r: string :: IsPart(p) && HtmlOf(p) != "" && s == HtmlOf(p) + r
  }

  ghost predicate IsUnclosed(s: string) {
    exists name: string, body: string, w: string ::
      && IsName(name) && IsBody(body) && Fold(name) in REMOVED && !IsSelfClosing(body) && !HasEnd(w, Fold(name))
      && s == OpenText(name, body) + w
  }

  predicate IsCutShort(s: string) {
    || (StartsWith(s, "<!--") && !HasCommentEnd(s[4..]))
    || (StartsWith(s, "<!") && !StartsWith(s, "<!--") && '>' !in s)
    || (StartsWith(s, "<?") && '>' !in s)
  }

  ghost predicate StartsStray(s: string) {
    s != "" && s[0] == '<' && !StartsSomeTag(s[1..]) && (|s| > 1 ==> s[1] != '!' && s[1] != '?')
  }

  /** Every text that is not empty starts with a part, is an unclosed element, an
      unclosed comment or declaration, or starts with a stray `<`. */
  lemma EveryText(s: string)
    requires s != ""
    ensures StartsPart(s) || IsUnclosed(s) || IsCutShort(s) || StartsStray(s)
  {
    if s[0] != '<' {
      PlainStarts(s);
    } else if |s| > 1 && (s[1] == '!' || s[1] == '?') {
      DeclarationStarts(s);
    } else if StartsSomeTag(s[1..]) {
      assert s == "<" + s[1..];
      var closing: bool, name: string, body: string, rest: string :| IsTagText(closing, name, body, rest, s);
      TagStarts(closing, name, body, rest, s);
    }
  }

  lemma PartStarts(p: Part, r: string, s: string)
    requires IsPart(p) && HtmlOf(p) != "" && s == HtmlOf(p) + r
    ensures StartsPart(s)
  {
    hide IsPart, HtmlOf;
  }

  lemma PlainStarts(s: string)
    requires s != "" && s[0] != '<'
    ensures StartsPart(s)
  {
    PartStarts(Plain([s[0]]), s[1..], s);
  }

  lemma CommentStarts(s: string)
    requires StartsWith(s, "<!--") && HasCommentEnd(s[4..])
    ensures StartsPart(s)
  {
    var i := FirstCommentEnd(s[4..]);
    var text, r := s[4..][..i], s[i + 7..];
    assert s[4..][i..][..3] == "-->" && s[4..][i..][3..] == r;
    assert s[4..] == text + s[4..][i..] && s[4..][i..] == "-->" + r;
    assert s == "<!--" + s[4..];
    hide HasCommentEnd;
    assert s == "<!--" + text + "-->" + r;
    PartStarts(Comment(text), r, s);
  }

  lemma {:induction false} FirstCommentEnd(w: string) returns (i: nat)
    requires HasCommentEnd(w)
    ensures i + 3 <= |w| && StartsWith(w[i..], "-->") && !HasCommentEnd(w[..i])
  {
    if StartsWith(w, "-->") {
      i := 0;
      assert w[0..] == w && w[..0] == "";
    } else {
      var j :| 0 <= j <= |w| && StartsWith(w[j..], "-->");
      assert w[0..] == w;
      assert w[1..][j - 1..] == w[j..];
      i := FirstCommentEnd(w[1..]);
      assert w[1..][i..] == w[i + 1..];
      PrefixCommentEnd(w, i);
      i := i + 1;
    }
  }

  lemma PrefixCommentEnd(w: string, i: nat)
    requires i < |w| && !StartsWith(w, "-->") && !HasCommentEnd(w[1..][..i])
    ensures !HasCommentEnd(w[..i + 1])
  {
    var v := w[..i + 1];
    assert v[1..] == w[1..][..i];
    forall j | 0 <= j <= |v| ensures !StartsWith(v[j..], "-->") {
      if j == 0 {
        assert |v| >= 3 ==> v[0..][..3] == w[..3];
      } else {
        assert v[1..][j - 1..] == v[j..];
      }
    }
  }

  lemma {:induction false} DeclarationCut(s: string, k: nat)
    requires 2 <= k < |s| && s[0] == '<' && s[k] == '>'
    ensures s == "<" + [s[1]] + s[2..k] + ">" + s[k + 1..]
  {
    assert s == [s[0]] + [s[1]] + s[2..k] + [s[k]] + s[k + 1..];
  }

  lemma {:induction false} NoCommentMark(s: string, k: nat)
    requires 2 <= k <= |s| && s[0] == '<' && s[1] == '!' && !StartsWith(s, "<!--")
    ensures !StartsWith(s[2..k], "--")
  {
    if k >= 4 {
      assert s[2..k][..2] == s[2..4] && s[..4] == [s[0], s[1]] + s[2..4];
    }
  }

  lemma {:induction false} BracketAt(s: string)
    requires |s| > 1 && '>' in s && s[0] != '>' && s[1] != '>'
    ensures IndexOf(s, '>').Some? && IndexOf(s, '>').value >= 2 && '>' !in s[2..IndexOf(s, '>').value]
  {
    var k := IndexOf(s, '>').value;
    hide IndexOf;
    assert forall i | 2 <= i < k :: s[..k][i] == s[2..k][i - 2];
  }

  lemma {:induction false} DeclarationIs(mark: char, text: string)
    requires (mark == '!' || mark == '?') && '>' !in text && (mark == '!' ==> !StartsWith(text, "--"))
    ensures IsPart(Declaration(mark, text))
  {
    hide StartsWith;
  }

  lemma {:induction false} DeclarationStarts(s: string)
    requires |s| > 1 && s[0] == '<' && (s[1] == '!' || s[1] == '?')
    ensures StartsPart(s) || IsCutShort(s)
  {
    hide StartsPart, IndexOf, HasCommentEnd, IsPart, HtmlOf;
    if StartsWith(s, "<!--") {
      if HasCommentEnd(s[4..]) {
        CommentStarts(s);
      }
    } else if '>' in s {
      BracketAt(s);
      var k := IndexOf(s, '>').value;
      DeclarationCut(s, k);
      if s[1] == '!' {
        NoCommentMark(s, k);
      }
      DeclarationIs(s[1], s[2..k]);
      DeclarationText(s[1], s[2..k]);
      PartStarts(Declaration(s[1], s[2..k]), s[k + 1..], s);
    }
  }

  lemma {:induction false} DeclarationText(mark: char, text: string)
    ensures HtmlOf(Declaration(mark, text)) == "<" + [mark] + text + ">"
  {
  }

  lemma TailSlice(w: string, a: nat, b: nat)
    requires 1 <= a <= b <= |w|
    ensures w[1..][a - 1..b - 1] == w[a..b]
  {
  }

  lemma {:induction false} FirstEndIn(w: string, name: string) returns (i: nat, j: nat)
    requires HasEnd(w, name)
    ensures i <= j <= |w| && IsEnd(w[i..j], name) && !HasEnd(w[..i], name)
  {
    hide IsEnd;
    if n :| 0 <= n <= |w| && IsEnd(w[0..n], name) {
      i, j := 0, n;
      NoEndInNothing(name);
      assert w[..0] == "";
    } else {
      var a, b :| 0 <= a <= b <= |w| && IsEnd(w[a..b], name);
      TailSlice(w, a, b);
      i, j := FirstEndIn(w[1..], name);
      TailSlice(w, i + 1, j + 1);
      PrefixEnd(w, i, name);
      i, j := i + 1, j + 1;
    }
  }

  lemma NoEndInNothing(name: string)
    ensures !HasEnd("", name)
  {
  }

  lemma PrefixEnd(w: string, i: nat, name: string)
    requires i < |w| && !HasEnd(w[1..][..i], name)
    requires forall n | 0 <= n <= |w| :: !IsEnd(w[0..n], name)
    ensures !HasEnd(w[..i + 1], name)
  {
    hide IsEnd;
    var v := w[..i + 1];
    assert v[1..] == w[1..][..i];
    forall a, b | 0 <= a <= b <= |v| ensures !IsEnd(v[a..b], name) {
      if a == 0 {
        assert v[0..b] == w[0..b];
      } else {
        assert v[1..][a - 1..b - 1] == v[a..b];
      }
    }
  }

  lemma EndPieces(t: string, name: string) returns (end: string, blank: string)
    requires IsEnd(t, name)
    ensures t == EndText(end, blank) && Fold(end) == name && AllChars(blank, IsSpace)
  {
    end, blank := t[2..2 + |name|], t[2 + |name|..|t| - 1];
    assert t == t[..2] + end + blank + [t[|t| - 1]];
  }

  lemma CutInThree(head: string, rest: string, i: nat, j: nat)
    requires i <= j <= |rest|
    ensures head + rest == head + rest[..i] + rest[i..j] + rest[j..]
  {
  }

  lemma RemovedStarts(name: string, body: string, rest: string, s: string)
    requires IsName(name) && IsBody(body) && Fold(name) in REMOVED && !IsSelfClosing(body) && HasEnd(rest, Fold(name))
    requires s == OpenText(name, body) + rest
    ensures StartsPart(s)
  {
    hide *;
    var i, j := FirstEndIn(rest, Fold(name));
    var end, blank := EndPieces(rest[i..j], Fold(name));
    var p := Removed(name, body, rest[..i], end, blank);
    RemovedIs(p);
    CutInThree(OpenText(name, body), rest, i, j);
    PartStarts(p, rest[j..], s);
  }

  lemma RemovedIs(p: Part)
    requires p.Removed? && IsName(p.name) && IsBody(p.body) && Fold(p.name) in REMOVED && !IsSelfClosing(p.body)
    requires !HasEnd(p.content, Fold(p.name)) && Fold(p.end) == Fold(p.name) && AllChars(p.blank, IsSpace)
    ensures IsPart(p) && HtmlOf(p) == OpenText(p.name, p.body) + p.content + EndText(p.end, p.blank) && HtmlOf(p) != ""
  {
    hide IsName, IsBody, HasEnd, IsSelfClosing, REMOVED;
  }

  lemma TagStarts(closing: bool, name: string, body: string, rest: string, s: string)
    requires IsTagText(closing, name, body, rest, s)
    ensures StartsPart(s) || IsUnclosed(s)
  {
    hide HasEnd, IsName, IsBody, IsSelfClosing, REMOVED, StartsPart, Lead, OpenText;
    if Fold(name) in REMOVED && !closing && !IsSelfClosing(body) {
      MarkText(false, name, body, rest);
      OpenTextIs(name, body, rest);
      if HasEnd(rest, Fold(name)) {
        RemovedStarts(name, body, rest, s);
      }
    } else {
      PartStarts(Mark(closing, name, body), rest, s);
    }
  }

  // ---- How tags are closed

  /** Closing tags for the elements `names`, innermost first. */
  function Ends(names: seq<string>): (ts: seq<Token>)
    ensures |ts| == |names|
  {
    seq(|names|, i requires 0 <= i < |names| => Close(names[|names| - 1 - i]))
  }

  lemma {:induction false} ClosersAre(names: seq<string>)
    ensures Closers(names) == Ends(names)
  {
    if names != [] {
      var n := |names| - 1;
      ClosersAre(names[..n]);
      assert Ends(names) == [Close(names[n])] + Ends(names[..n]);
    }
  }

  /** Tags that are nested so far stay as they are, whatever follows. */
  lemma {:induction false} NestedStays(ts: seq<Token>, from: seq<string>, open: seq<string>, x: seq<Token>)
    requires Nest(ts, from) == Some(open)
    ensures Balance(ts + x, from) == ts + Balance(x, open)
  {
    hide *;
    if ts == [] {
      NothingNested(from, x);
    } else {
      NestStep(ts, from);
      FirstToken(ts, x);
      BalanceStep(ts[0], ts[1..] + x, from);
      NestedStays(ts[1..], NowOpen(ts[0], from), open, x);
      FirstToken(ts, Balance(x, open));
    }
  }

  lemma {:induction false} NothingNested(from: seq<string>, x: seq<Token>)
    ensures Nest([], from) == Some(from) && [] + x == x && [] + Balance(x, from) == Balance(x, from)
  {
    hide Balance;
  }

  /** The open elements after a token that keeps the nesting. */
  function NowOpen(t: Token, from: seq<string>): seq<string> {
    match t
    case Chr(_) => from
    case Open(name, _) => if IsVoid(name) then from else from + [name]
    case Close(_) => if from == [] then [] else from[..|from| - 1]
  }

  lemma {:induction false} NestStep(ts: seq<Token>, from: seq<string>)
    requires ts != [] && Nest(ts, from).Some?
    ensures Nest(ts, from) == Nest(ts[1..], NowOpen(ts[0], from))
    ensures ts[0].Close? ==> from != [] && from[|from| - 1] == ts[0].name
  {
  }

  lemma {:induction false} FirstToken(ts: seq<Token>, x: seq<Token>)
    requires ts != []
    ensures ts + x == [ts[0]] + (ts[1..] + x)
  {
  }

  /** A token that keeps the nesting stays. */
  lemma {:induction false} BalanceStep(t: Token, x: seq<Token>, from: seq<string>)
    requires t.Close? ==> from != [] && from[|from| - 1] == t.name
    ensures Balance([t] + x, from) == [t] + Balance(x, NowOpen(t, from))
  {
    if t.Close? {
      var n := |from| - 1;
      CloseStep(t.name, x, from);
      LastAt(from[..n], t.name, []);
      OneCloser(t.name);
      hide Balance, LastIndexOf, Closers;
      assert from == from[..n] + [t.name] + [] && from[n..] == [t.name];
    } else {
      assert ([t] + x)[1..] == x;
    }
  }

  lemma {:induction false} CloseStep(name: string, v: seq<Token>, open: seq<string>)
    ensures Balance([Close(name)] + v, open) ==
      match LastIndexOf(open, name)
      case None => Balance(v, open)
      case Some(at) => Closers(open[at..]) + Balance(v, open[..at])
  {
    assert ([Close(name)] + v)[1..] == v;
    hide LastIndexOf;
  }

  lemma {:induction false} LastAt(a: seq<string>, name: string, b: seq<string>)
    requires name !in b
    ensures LastIndexOf(a + [name] + b, name) == Some(|a|)
  {
    var open := a + [name] + b;
    if b == [] {
      assert open == a + [name];
    } else {
      assert open[..|open| - 1] == a + [name] + b[..|b| - 1] && open[|open| - 1] == b[|b| - 1];
      LastAt(a, name, b[..|b| - 1]);
    }
  }

  lemma {:induction false} NotOpen(open: seq<string>, name: string)
    requires name !in open
    ensures LastIndexOf(open, name).None?
  {
    hide LastIndexOf;
  }

  /** A closing tag of an element that is not open is dropped. */
  lemma {:induction false} StrayEnd(ts: seq<Token>, open: seq<string>, name: string, v: seq<Token>)
    requires Nest(ts, []) == Some(open) && name !in open
    ensures Balance(ts + ([Close(name)] + v), []) == Balance(ts + v, [])
  {
    hide Balance, Nest, LastIndexOf;
    NestedStays(ts, [], open, [Close(name)] + v);
    NestedStays(ts, [], open, v);
    CloseStep(name, v, open);
    NotOpen(open, name);
  }

  lemma EndsStep(b: seq<string>, x: seq<Token>)
    requires b != []
    ensures var n := |b| - 1; Ends(b) + x == [Close(b[n])] + (Ends(b[..n]) + x)
    ensures forall y: seq<Token> :: [Close(b[|b| - 1])] + (Ends(b[..|b| - 1]) + y) == Ends(b) + y
  {
    assert Ends(b) == [Close(b[|b| - 1])] + Ends(b[..|b| - 1]);
  }

  lemma NamesApart(a: seq<string>, b: seq<string>)
    requires b != []
    ensures var n := |b| - 1;
      && a + b == (a + b[..n]) + [b[n]] + [] && |a + b[..n]| == |a| + n
      && (a + b)[|a| + n..] == [b[n]] && (a + b)[..|a| + n] == a + b[..n]
  {
  }

  lemma {:induction false} NoEnds(x: seq<Token>, a: seq<string>)
    ensures Ends([]) + x == x && a + [] == a && Ends([]) + Balance(x, a) == Balance(x, a)
  {
    hide Balance;
  }

  lemma {:induction false} EndsClose(b: seq<string>, a: seq<string>, x: seq<Token>)
    ensures Balance(Ends(b) + x, a + b) == Ends(b) + Balance(x, a)
  {
    hide *;
    if b == [] {
      NoEnds(x, a);
    } else {
      var n := |b| - 1;
      EndsStep(b, x);
      NamesApart(a, b);
      CloseStep(b[n], Ends(b[..n]) + x, a + b);
      LastAt(a + b[..n], b[n], []);
      OneCloser(b[n]);
      EndsClose(b[..n], a, x);
    }
  }

  lemma OneCloser(name: string)
    ensures Closers([name]) == [Close(name)]
  {
    assert [name][..0] == [];
  }

  lemma CutAt(a: seq<string>, name: string, b: seq<string>)
    ensures var open := a + [name] + b; open[|a|..] == [name] + b && open[..|a|] == a
    ensures (a + [name])[|a|..] == [name] && (a + [name])[..|a|] == a && a + [name] + [] == a + [name]
  {
  }

  lemma {:induction false} EndsAround(name: string, b: seq<string>)
    ensures Closers([name] + b) == Ends(b) + [Close(name)] && Closers([name]) == [Close(name)]
  {
    ClosersAre([name] + b);
    OneCloser(name);
    hide Closers;
    assert Ends([name] + b) == Ends(b) + [Close(name)];
  }

  lemma ThreeJoin(a: seq<Token>, b: seq<Token>, c: seq<Token>)
    ensures a + b + c == a + (b + c)
  {
  }

  /** A closing tag closes the elements inside its own first. */
  lemma {:induction false} MissingEnds(ts: seq<Token>, a: seq<string>, name: string, b: seq<string>, v: seq<Token>)
    requires Nest(ts, []) == Some(a + [name] + b) && name !in b
    ensures Balance(ts + ([Close(name)] + v), []) == Balance(ts + (Ends(b) + ([Close(name)] + v)), [])
  {
    hide *;
    var open := a + [name] + b;
    NestedStays(ts, [], open, [Close(name)] + v);
    NestedStays(ts, [], open, Ends(b) + ([Close(name)] + v));
    CloseStep(name, v, open);
    LastAt(a, name, b);
    EndsClose(b, a + [name], [Close(name)] + v);
    CloseStep(name, v, a + [name]);
    LastAt(a, name, []);
    NotInNothing(name);
    CutAt(a, name, b);
    EndsAround(name, b);
    ThreeJoin(Ends(b), [Close(name)], Balance(v, a));
  }

  lemma NotInNothing(name: string)
    ensures name !in []
  {
  }

  /** What is open at the end is closed there. */
  lemma {:induction false} EndsAdded(ts: seq<Token>, open: seq<string>)
    requires Nest(ts, []) == Some(open)
    ensures Balance(ts, []) == ts + Ends(open)
  {
    NestedStays(ts, [], open, []);
    ClosersAre(open);
    assert ts + [] == ts;
  }

  lemma CleanParts(ts: seq<Token>, name: string, v: seq<Token>)
    requires AreClean(ts + ([Close(name)] + v))
    ensures AreClean(ts) && AreClean(ts + v)
  {
    hide IsClean;
    var all := ts + ([Close(name)] + v);
    assert forall i | 0 <= i < |ts| :: all[i] == ts[i];
    assert forall i | 0 <= i < |v| :: all[|ts| + 1 + i] == v[i];
  }

  lemma {:induction false} SanitizedAs(ts: seq<Token>)
    requires Lex(Render(ts)) == ts
    ensures Sanitized(Render(ts)) == Render(Balance(ts, []))
  {
    hide Lex, Render, Balance;
  }

  /** Printed tags with one closing tag too many, or some missing, are sanitized
      as with the right ones. */
  lemma {:induction false} ClosedAlike(ts: seq<Token>, open: seq<string>, name: string, v: seq<Token>)
    requires AreClean(ts + ([Close(name)] + v)) && Nest(ts, []) == Some(open)
    ensures Sanitized(Render(ts)) == Render(ts) + Render(Ends(open))
    ensures name !in open ==> Sanitized(Render(ts + ([Close(name)] + v))) == Sanitized(Render(ts + v))
  {
    hide *;
    CleanParts(ts, name, v);
    LexRender(ts);
    LexRender(ts + ([Close(name)] + v));
    LexRender(ts + v);
    EndsAdded(ts, open);
    RenderConcat(ts, Ends(open));
    SanitizedAs(ts);
    SanitizedAs(ts + ([Close(name)] + v));
    SanitizedAs(ts + v);
    if name !in open {
      StrayEnd(ts, open, name, v);
    }
  }
}
