/** The allowlist sanitizer for quoted mail (`sanitizeQuotedHtml` of
    `shared/quoted-html.ts`): a scanner that turns HTML into tokens, and a stack
    that balances them. */
module Sanitizer {
  import opened Strings
  import opened Attributes

  const ALLOWED_TAGS: set<string> := {
    "a", "abbr", "address", "article", "aside", "b", "bdi", "bdo", "big", "blockquote", "br",
    "caption", "center", "cite", "code", "col", "colgroup", "dd", "del", "dfn", "div", "dl",
    "dt", "em", "figcaption", "figure", "font", "footer", "h1", "h2", "h3", "h4", "h5", "h6",
    "header", "hr", "i", "img", "ins", "kbd", "li", "main", "mark", "nav", "ol", "p", "pre",
    "q", "s", "samp", "section", "small", "span", "strike", "strong", "sub", "sup", "table",
    "tbody", "td", "tfoot", "th", "thead", "tr", "tt", "u", "ul", "var", "wbr"
  }

  const DROP_WITH_CONTENT: set<string> := {
    "applet", "audio", "base", "button", "canvas", "datalist", "embed", "frame", "frameset",
    "head", "iframe", "input", "link", "map", "math", "meta", "noembed", "noframes", "noscript",
    "object", "option", "optgroup", "plaintext", "script", "select", "style", "svg", "template",
    "textarea", "title", "video", "xmp"
  }

  const RAW_TEXT: set<string> := {
    "iframe", "noembed", "noframes", "noscript", "plaintext", "script", "style", "textarea",
    "title", "xmp"
  }

  const VOID_TAGS: set<string> := {"br", "col", "hr", "img", "wbr"}

  predicate IsVoid(name: string) {
    name in VOID_TAGS
  }

  /** Tags that are kept (with checked attributes). */
  predicate IsAllowed(name: string) {
    name in ALLOWED_TAGS
  }

  predicate IsDropped(name: string) {
    name in DROP_WITH_CONTENT
  }

  // ---- Tags

  predicate IsTagNameChar(c: char) {
    IsAlnum(c) || c == ':' || c == '-'
  }

  /** A tag as written; `length` counts it from `<` to `>`. */
  datatype Tag = Tag(closing: bool, name: string, attrs: string, length: nat)

  function Shift(o: Option<nat>, k: nat): Option<nat> {
    match o
    case None => None
    case Some(n) => Some(n + k)
  }

  /** Index of the `>` that ends a tag: a quote must close, and a `>` inside
      quotes does not count. */
  function BodyEnd(s: string): (r: Option<nat>)
    ensures r.Some? ==> r.value < |s| && s[r.value] == '>'
    decreases |s|
  {
    if s == "" then None
    else if s[0] == '>' then Some(0)
    else if s[0] == '"' || s[0] == '\'' then
      match IndexOf(s[1..], s[0])
      case None => None
      case Some(k) => Shift(BodyEnd(s[k + 2..]), k + 2)
    else Shift(BodyEnd(s[1..]), 1)
  }

  /** The tag at the head of `s`. */
  function TagAt(s: string): (t: Option<Tag>)
    ensures t.Some? ==> 2 < t.value.length <= |s| && t.value.name != "" && IsLetter(t.value.name[0])
    ensures t.Some? ==> AllChars(t.value.name, IsTagNameChar)
  {
    if |s| < 2 || s[0] != '<' then None else
    var p := if s[1] == '/' then 2 else 1;
    if p >= |s| || !IsLetter(s[p]) then None else
    var k := p + Run(s[p..], IsTagNameChar);
    match BodyEnd(s[k..])
    case None => None
    case Some(b) =>
      Some(Tag(p == 2, s[p..k], s[k..k + b], k + b + 1))
  }

  /** `</name\s*>` at the head of `s`: its length. */
  function CloseAt(s: string, name: string): (r: Option<nat>)
    ensures r.Some? ==> r.value <= |s|
  {
    if StartsWith(s, "</") && StartsWithFold(s[2..], name) then
      var k := 2 + |name| + Run(s[2 + |name|..], IsSpace);
      if k < |s| && s[k] == '>' then Some(k + 1) else None
    else None
  }

  /** `indexAfterClose`: how far the first closing tag of `name` ends. */
  function AfterClose(s: string, name: string): (r: Option<nat>)
    ensures r.Some? ==> r.value <= |s|
  {
    if CloseAt(s, name).Some? then CloseAt(s, name)
    else if s == "" then None
    else Shift(AfterClose(s[1..], name), 1)
  }

  predicate EndsWithSlash(attrs: string) {
    var k := TrimEndLength(attrs);
    k > 0 && attrs[k - 1] == '/'
  }

  // ---- Tokens

  datatype Token =
    | Chr(c: char)
    | Open(name: string, attrs: seq<Attr>)
    | Close(name: string)

  function Chars(s: string): (ts: seq<Token>)
    ensures |ts| == |s|
  {
    seq(|s|, i requires 0 <= i < |s| => Chr(s[i]))
  }

  /** What markup at the head of the input yields, and its length. */
  datatype Markup = Markup(tokens: seq<Token>, used: nat)

  function MarkupAt(s: string): (m: Markup)
    requires s != "" && s[0] == '<'
    ensures 0 < m.used <= |s|
  {
    if StartsWith(s, "<!--") then
      match Find(s[4..], "-->")
      case None => Markup([], |s|)
      case Some(k) => Markup([], k + 7)
    else if |s| > 1 && (s[1] == '!' || s[1] == '?') then
      match IndexOf(s, '>')
      case None => Markup([], |s|)
      case Some(k) => Markup([], k + 1)
    else
      match TagAt(s)
      case None => Markup(Chars("&lt;"), 1)
      case Some(t) => TagMarkup(s, t)
  }

  function TagMarkup(s: string, t: Tag): (m: Markup)
    requires 0 < t.length <= |s|
    ensures 0 < m.used <= |s|
  {
    var name := Lower(t.name);
    if IsDropped(name) then
      if t.closing || EndsWithSlash(t.attrs) then Markup([], t.length)
      else
        match AfterClose(s[t.length..], name)
        case Some(k) => Markup([], t.length + k)
        case None => Markup([], if name in RAW_TEXT then |s| else t.length)
    else if !IsAllowed(name) then Markup([], t.length)
    else if t.closing then Markup([Close(name)], t.length)
    else Markup([Open(name, KeepAttrs(name, ScanAttrs(t.attrs), {}))], t.length)
  }

  function TextTokens(c: char): seq<Token> {
    Chars(if c == '>' then "&gt;" else [c])
  }

  /** The tokens of an HTML text: every character of text, every allowed tag. */
  function Lex(s: string): seq<Token>
    decreases |s|
  {
    if s == "" then []
    else if s[0] == '<' then MarkupAt(s).tokens + Lex(s[MarkupAt(s).used..])
    else TextTokens(s[0]) + Lex(s[1..])
  }

  // ---- Balancing

  /** Closing tags for every open element, innermost first. */
  function Closers(open: seq<string>): seq<Token> {
    if open == [] then [] else [Close(open[|open| - 1])] + Closers(open[..|open| - 1])
  }

  /** `lastIndexOf`. */
  function LastIndexOf(open: seq<string>, name: string): (r: Option<nat>)
    ensures r.Some? ==> r.value < |open| && open[r.value] == name
    ensures r.None? ==> name !in open
  {
    if open == [] then None
    else if open[|open| - 1] == name then Some(|open| - 1)
    else LastIndexOf(open[..|open| - 1], name)
  }

  function Balance(ts: seq<Token>, open: seq<string>): seq<Token> {
    if ts == [] then Closers(open)
    else
      match ts[0]
      case Chr(_) => [ts[0]] + Balance(ts[1..], open)
      case Open(name, _) =>
        [ts[0]] + Balance(ts[1..], if IsVoid(name) then open else open + [name])
      case Close(name) =>
        match LastIndexOf(open, name)
        case None => Balance(ts[1..], open)
        case Some(at) => Closers(open[at..]) + Balance(ts[1..], open[..at])
  }

  function RenderToken(t: Token): string {
    match t
    case Chr(c) => [c]
    case Close(name) => "</" + name + ">"
    case Open(name, attrs) => "<" + name + RenderRaws(EmittedRaws(name, attrs)) + ">"
  }

  function Render(ts: seq<Token>): string {
    if ts == [] then "" else RenderToken(ts[0]) + Render(ts[1..])
  }

  function Sanitized(html: string): string {
    Render(Balance(Lex(html), []))
  }

  // ---- The loop of sanitizeQuotedHtml

  lemma {:induction false} RenderConcat(a: seq<Token>, b: seq<Token>)
    ensures Render(a + b) == Render(a) + Render(b)
  {
    if a == [] {
      assert a + b == b;
    } else {
      assert (a + b)[1..] == a[1..] + b;
      RenderConcat(a[1..], b);
    }
  }

  lemma {:induction false} RenderChars(s: string)
    ensures Render(Chars(s)) == s
  {
    if s != "" {
      assert Chars(s)[1..] == Chars(s[1..]);
      RenderChars(s[1..]);
    }
  }

  lemma {:induction false} BalanceChars(s: string, ts: seq<Token>, open: seq<string>)
    ensures Balance(Chars(s) + ts, open) == Chars(s) + Balance(ts, open)
  {
    hide LastIndexOf, Closers, IsVoid;
    if s == "" {
      assert Chars(s) + ts == ts;
    } else {
      assert (Chars(s) + ts)[1..] == Chars(s[1..]) + ts;
      BalanceChars(s[1..], ts, open);
    }
  }

  lemma {:induction false} LexText(t: string, r: string)
    requires '<' !in t
    ensures Lex(t + r) == Chars(ReplaceChar(t, '>', "&gt;")) + Lex(r)
  {
    hide MarkupAt, ReplaceChar;
    if t == "" {
      assert t + r == r;
      ReplaceCharAbsent(t, '>', "&gt;");
      assert Chars("") + Lex(r) == Lex(r);
    } else {
      TailConcat(t, r);
      hide Lex, Chars;
      LexChar(t + r);
      LexText(t[1..], r);
      ReplaceCharHead(t, '>', "&gt;");
      CharsConcat(if t[0] == '>' then "&gt;" else [t[0]], ReplaceChar(t[1..], '>', "&gt;"));
    }
  }

  lemma {:induction false} LexChar(s: string)
    requires s != "" && s[0] != '<'
    ensures Lex(s) == Chars(if s[0] == '>' then "&gt;" else [s[0]]) + Lex(s[1..])
  {
    hide MarkupAt;
  }

  lemma {:induction false} ReplaceCharHead(t: string, c: char, sub: string)
    requires t != ""
    ensures ReplaceChar(t, c, sub) == (if t[0] == c then sub else [t[0]]) + ReplaceChar(t[1..], c, sub)
  {
  }

  lemma CharsConcat(a: string, b: string)
    ensures Chars(a + b) == Chars(a) + Chars(b)
  {
  }

  /** What is still to be emitted for the tokens `ts` with `open` elements. */
  function Rest(ts: seq<Token>, open: seq<string>): string {
    Render(Balance(ts, open))
  }

  /** Emits one piece of markup and updates the open elements. */
  method EmitMarkup(tokens: seq<Token>, open: seq<string>, ghost ts: seq<Token>)
    returns (text: string, nowOpen: seq<string>)
    requires IsOnePiece(tokens)
    ensures Rest(tokens + ts, open) == text + Rest(ts, nowOpen)
  {
    hide Rest, LastIndexOf, Closers, Render, RenderRaws, EmittedRaws, RenderToken, IsVoid, Chars;
    text, nowOpen := "", open;
    if tokens == [] {
      assert tokens + ts == ts;
      return;
    }
    match tokens[0] {
      case Chr(_) =>
        RestStray(ts, open);
        text := "&lt;";
      case Open(name, attrs) =>
        RestOpen(tokens, ts, open);
        text := "<" + name + RenderRaws(EmittedRaws(name, attrs)) + ">";
        if !IsVoid(name) {
          nowOpen := open + [name];
        }
      case Close(name) =>
        RestClose(tokens, ts, open);
        var at := LastIndexOf(open, name);
        if at.Some? {
          text := PopUntil(at.value, open);
          nowOpen := open[..at.value];
        }
    }
  }

  method SanitizeQuotedHtml(html: Option<string>) returns (out: string)
    ensures out == if html.Some? then Sanitized(html.value) else ""
  {
    hide Rest, Lex, MarkupAt, ReplaceChar, IndexOf, Closers, Render, Chars;
    if html.None? || html.value == "" {
      LexNothing([]);
      return "";
    }
    SanitizedIsRest(html.value);
    out := "";
    var open: seq<string> := [];
    var rest := html.value;
    while rest != ""
      invariant out + Rest(Lex(rest), open) == Sanitized(html.value)
      decreases |rest|
    {
      var lt := IndexOf(rest, '<');
      var n := if lt.None? then |rest| else lt.value;
      RestText(rest, n, open);
      out := out + ReplaceChar(rest[..n], '>', "&gt;");
      rest := rest[n..];
      if lt.None? {
        break;
      }
      var m := MarkupAt(rest);
      LexMarkup(rest);
      MarkupShape(rest);
      rest := rest[m.used..];
      var text;
      text, open := EmitMarkup(m.tokens, open, Lex(rest));
      out := out + text;
    }
    LexNothing(open);
    var popped := PopUntil(0, open);
    out := out + popped;
  }

  /** `while (open.length > at) out += closing tag of open.pop()`. */
  method PopUntil(at: nat, start: seq<string>) returns (out: string)
    requires at <= |start|
    ensures out == Render(Closers(start[at..]))
  {
    hide Render, Closers;
    out := "";
    var open := start;
    while |open| > at
      invariant at <= |open|
      invariant out + Render(Closers(open[at..])) == Render(Closers(start[at..]))
    {
      var last := open[|open| - 1];
      RenderPop(open, at);
      open := open[..|open| - 1];
      out := out + "</" + last + ">";
    }
    RenderNoClosers(open[at..]);
  }

  lemma {:induction false} RenderNoClosers(open: seq<string>)
    requires open == []
    ensures Render(Closers(open)) == ""
  {
  }

  lemma RenderPop(open: seq<string>, at: nat)
    requires at < |open|
    ensures Render(Closers(open[at..]))
         == "</" + open[|open| - 1] + ">" + Render(Closers(open[..|open| - 1][at..]))
  {
    var top := open[at..];
    assert top[..|top| - 1] == open[..|open| - 1][at..];
  }

  lemma {:induction false} RestText(s: string, n: nat, open: seq<string>)
    requires n <= |s| && '<' !in s[..n]
    ensures Rest(Lex(s), open) == ReplaceChar(s[..n], '>', "&gt;") + Rest(Lex(s[n..]), open)
  {
    hide Rest, ReplaceChar, Lex, Chars;
    var w, ts := ReplaceChar(s[..n], '>', "&gt;"), Lex(s[n..]);
    LexText(s[..n], s[n..]);
    SplitAt(s, n);
    RestChars(w, ts, open);
  }

  lemma SplitAt(s: string, n: nat)
    requires n <= |s|
    ensures s[..n] + s[n..] == s
  {
  }

  lemma RestChars(w: string, ts: seq<Token>, open: seq<string>)
    ensures Rest(Chars(w) + ts, open) == w + Rest(ts, open)
  {
    BalanceChars(w, ts, open);
    RenderConcat(Chars(w), Balance(ts, open));
    RenderChars(w);
  }

  lemma RestStray(ts: seq<Token>, open: seq<string>)
    ensures Rest(Chars("&lt;") + ts, open) == "&lt;" + Rest(ts, open)
  {
    RestChars("&lt;", ts, open);
  }

  lemma {:induction false} SanitizedIsRest(html: string)
    ensures Sanitized(html) == Rest(Lex(html), [])
  {
  }

  lemma LexNothing(open: seq<string>)
    ensures Rest(Lex(""), open) == Render(Closers(open[0..]))
    ensures Sanitized("") == ""
  {
    assert open[0..] == open;
  }

  lemma {:induction false} LexMarkup(s: string)
    requires s != "" && s[0] == '<'
    ensures Lex(s) == MarkupAt(s).tokens + Lex(s[MarkupAt(s).used..])
    ensures MarkupAt(s).tokens == [] ==> Lex(s) == Lex(s[MarkupAt(s).used..])
  {
    hide MarkupAt;
    var ts, rest := MarkupAt(s).tokens, Lex(s[MarkupAt(s).used..]);
    assert ts == [] ==> ts + rest == rest;
  }

  predicate IsOnePiece(ts: seq<Token>) {
    ts == [] || if ts[0].Chr? then ts == Chars("&lt;") else |ts| == 1
  }

  /** Markup at a `<` yields nothing, one tag, or an escaped `<`. */
  lemma MarkupShape(s: string)
    requires s != "" && s[0] == '<'
    ensures IsOnePiece(MarkupAt(s).tokens)
  {
    hide Find, IndexOf, TagAt, Lower, IsDropped, IsAllowed, EndsWithSlash, AfterClose, KeepAttrs, ScanAttrs;
  }

  lemma RestOpen(head: seq<Token>, ts: seq<Token>, open: seq<string>)
    requires |head| == 1 && head[0].Open?
    ensures Rest(head + ts, open)
         == "<" + head[0].name + RenderRaws(EmittedRaws(head[0].name, head[0].attrs)) + ">"
            + Rest(ts, if IsVoid(head[0].name) then open else open + [head[0].name])
  {
    assert (head + ts)[1..] == ts;
  }

  lemma {:induction false} RestClose(head: seq<Token>, ts: seq<Token>, open: seq<string>)
    requires |head| == 1 && head[0].Close?
    ensures Rest(head + ts, open)
         == match LastIndexOf(open, head[0].name)
            case None => Rest(ts, open)
            case Some(at) => Render(Closers(open[at..])) + Rest(ts, open[..at])
  {
    assert (head + ts)[1..] == ts;
    if LastIndexOf(open, head[0].name).Some? {
      var at := LastIndexOf(open, head[0].name).value;
      RenderConcat(Closers(open[at..]), Balance(ts, open[..at]));
    }
  }
}
