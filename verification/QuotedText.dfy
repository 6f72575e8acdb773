/** HTML to plain text for quoting (`shared/quoted-text.ts`), as the chain of
    regular-expression replaces the source applies. */
module QuotedText {
  import opened Strings
  import opened Entities
  import opened Sanitizer

  // ---- Character classes

  predicate IsWordChar(c: char) {
    IsAlnum(c) || c == '_'
  }

  /** Invisible padding characters; the zero-width joiner is kept. */
  predicate IsInvisible(c: char) {
    || c == '\U{AD}' || c == '\U{34F}' || c == '\U{61C}' || c == '\U{180E}'
    || c == '\U{200B}' || c == '\U{200C}' || c == '\U{200E}' || c == '\U{200F}'
    || '\U{2060}' <= c <= '\U{2064}' || c == '\U{FEFF}'
  }

  /** White space collapsed inside a line of text. */
  predicate IsLineBlank(c: char) {
    || c == ' ' || c == '\t' || c == '\U{A0}' || '\U{2000}' <= c <= '\U{200A}'
    || c == '\U{202F}' || c == '\U{205F}' || c == '\U{3000}'
  }

  /** White space collapsed in HTML source. */
  predicate IsSourceBlank(c: char) {
    c == ' ' || c == '\t' || c == '\n' || c == '\U{C}'
  }

  predicate IsNotTagEnd(c: char) {
    c != '>'
  }

  predicate IsNewline(c: char) {
    c == '\n'
  }

  // ---- Tag expressions

  datatype Slash = Without | Optional | Required

  /** `<\/?(names)\b[^>]*>` at the head of `s`: its length. The word boundary
      makes the name a whole run of word characters. */
  function NamedTag(s: string, slash: Slash, names: set<string>): (r: Option<nat>)
    ensures r.Some? ==> 0 < r.value <= |s| && s[0] == '<'
  {
    if s == "" || s[0] != '<' then None else
    var slashed := |s| > 1 && s[1] == '/';
    if (slashed && slash.Without?) || (!slashed && slash.Required?) then None else
    var p := if slashed then 2 else 1;
    var k := p + Run(s[p..], IsWordChar);
    if Fold(s[p..k]) !in names then None
    else
      match IndexOf(s[k..], '>')
      case None => None
      case Some(j) => Some(k + j + 1)
  }

  lemma NamedTagParts(s: string, slash: Slash, names: set<string>, p: nat, k: nat)
    requires s != "" && s[0] == '<' && p == (if |s| > 1 && s[1] == '/' then 2 else 1)
    requires k == p + Run(s[p..], IsWordChar) && IndexOf(s[k..], '>').Some?
    ensures NamedTag(s, slash, names) ==
      if (p == 2 && slash.Without?) || (p == 1 && slash.Required?) || Fold(s[p..k]) !in names then None
      else Some(k + IndexOf(s[k..], '>').value + 1)
  {
    hide Run, Fold, IndexOf;
  }

  function Hits(length: Option<nat>, text: string): Option<Hit> {
    match length
    case None => None
    case Some(n) => Some(Hit(n, text))
  }

  /** `\r\n?` */
  function LineEndAt(s: string): Option<Hit> {
    if StartsWith(s, "\r\n") then Some(Hit(2, "\n"))
    else if StartsWith(s, "\r") then Some(Hit(1, "\n"))
    else None
  }

  /** `<!--[\s\S]*?-->` */
  function CommentAt(s: string): Option<Hit> {
    if !StartsWith(s, "<!--") then None
    else
      match Find(s[4..], "-->")
      case None => None
      case Some(k) => Some(Hit(k + 7, ""))
  }

  const NON_CONTENT: set<string> := {"head", "style", "script", "title"}

  /** `<(head|style|script|title)\b[^>]*>[\s\S]*?<\/\1\s*>` */
  function BlockAt(s: string): Option<Hit> {
    match NamedTag(s, Without, NON_CONTENT)
    case None => None
    case Some(n) =>
      var name := Fold(s[1..1 + Run(s[1..], IsWordChar)]);
      match AfterClose(s[n..], name)
      case None => None
      case Some(k) => Some(Hit(n + k, ""))
  }

  /** `<(style|script)\b[^>]*>[\s\S]*$` */
  function OpenBlockAt(s: string): Option<Hit> {
    if NamedTag(s, Without, {"style", "script"}).Some? then Some(Hit(|s|, "")) else None
  }

  function DropNonContent(html: string): string {
    ReplaceAll(ReplaceAll(ReplaceAll(html, CommentAt), BlockAt), OpenBlockAt)
  }

  function RunAt(s: string, p: char -> bool, text: string): Option<Hit> {
    if Run(s, p) > 0 then Some(Hit(Run(s, p), text)) else None
  }

  function SourceBlankAt(s: string): Option<Hit> {
    RunAt(s, IsSourceBlank, " ")
  }

  function LineBlankAt(s: string): Option<Hit> {
    RunAt(s, IsLineBlank, " ")
  }

  function InvisibleAt(s: string): Option<Hit> {
    if s != "" && IsInvisible(s[0]) then Some(Hit(1, "")) else None
  }

  /** `\n{3,}` */
  function BlankLinesAt(s: string): Option<Hit> {
    if Run(s, IsNewline) >= 3 then Some(Hit(Run(s, IsNewline), "\n\n")) else None
  }

  function BrAt(s: string): Option<Hit> {
    Hits(NamedTag(s, Without, {"br"}), "\n")
  }

  function ItemAt(s: string): Option<Hit> {
    Hits(NamedTag(s, Without, {"li"}), "\n\U{2022} ")
  }

  const PARAGRAPH_TAGS: set<string> :=
    {"p", "h1", "h2", "h3", "h4", "h5", "h6", "blockquote", "pre", "ul", "ol"}

  const LINE_TAGS: set<string> := {
    "div", "tr", "table", "tbody", "thead", "tfoot", "section", "article", "header", "footer",
    "dl", "dt", "dd", "center", "address"
  }

  function ParagraphAt(s: string): Option<Hit> {
    Hits(NamedTag(s, Optional, PARAGRAPH_TAGS), "\n\n")
  }

  function LineTagAt(s: string): Option<Hit> {
    Hits(NamedTag(s, Optional, LINE_TAGS), "\n")
  }

  function RuleAt(s: string): Option<Hit> {
    Hits(NamedTag(s, Without, {"hr"}), "\n")
  }

  /** `<\/(td|th)\s*>` */
  function CellEndAt(s: string): Option<Hit> {
    if CloseAt(s, "td").Some? then Hits(CloseAt(s, "td"), " ") else Hits(CloseAt(s, "th"), " ")
  }

  /** `<[^>]*>` */
  function AnyTagAt(s: string): Option<Hit> {
    if s == "" || s[0] != '<' then None
    else
      match IndexOf(s, '>')
      case None => None
      case Some(k) => Some(Hit(k + 1, ""))
  }

  /** `<[^>]*$` */
  function CutTagAt(s: string): Option<Hit> {
    if s != "" && s[0] == '<' && '>' !in s then Some(Hit(|s|, "")) else None
  }

  // ---- Hidden elements

  const HIDDEN_VOID: set<string> := {
    "area", "base", "br", "col", "embed", "hr", "img", "input", "link", "meta", "source", "track", "wbr"
  }

  /** An opening tag with a `style`: its name, the quoted style, its length. */
  datatype Opener = Opener(tag: string, style: string, length: nat)

  function AfterBlank(s: string, i: nat): (k: nat)
    requires i <= |s|
    ensures i <= k <= |s|
  {
    i + Run(s[i..], IsSpace)
  }

  predicate IsAt(s: string, i: nat, c: char) {
    i < |s| && s[i] == c
  }

  /** Where the quote of `style\s*=\s*["']` is, at the head of `s`. */
  function StyleQuote(s: string): (r: Option<nat>)
    ensures r.Some? ==> r.value < |s|
  {
    if !StartsWithFold(s, "style") then None else
    var a := AfterBlank(s, 5);
    if !IsAt(s, a, '=') then None else
    var b := AfterBlank(s, a + 1);
    if IsAt(s, b, '"') || IsAt(s, b, '\'') then Some(b) else None
  }

  /** `style\s*=\s*("…"|'…')[^>]*>` at the head of `s`. */
  function StyleAt(s: string): (r: Option<Opener>)
    ensures r.Some? ==> r.value.length <= |s|
  {
    match StyleQuote(s)
    case None => None
    case Some(b) =>
      match IndexOf(s[b + 1..], s[b])
      case None => None
      case Some(k) =>
        var e := b + k + 2;
        match IndexOf(s[e..], '>')
        case None => None
        case Some(j) => Some(Opener("", s[b..e], e + j + 1))
  }

  /** The last `\bstyle…` that fits, at `k + q` or before: `[^>]*` is greedy. */
  function LastStyle(s: string, k: nat, q: nat): (r: Option<Opener>)
    requires 0 < k && k + q <= |s|
    ensures r.Some? ==> r.value.length <= |s|
  {
    if !IsWordChar(s[k + q - 1]) && StyleAt(s[k + q..]).Some? then
      var o := StyleAt(s[k + q..]).value;
      Some(Opener("", o.style, k + q + o.length))
    else if q == 0 then None
    else LastStyle(s, k, q - 1)
  }

  /** `<([a-z][a-z0-9]*)\b[^>]*\bstyle\s*=\s*("…"|'…')[^>]*>` at the head of `s`. */
  function OpenerAt(s: string): (r: Option<Opener>)
    ensures r.Some? ==> 0 < r.value.length <= |s| && s[0] == '<'
  {
    if |s| < 2 || s[0] != '<' || !IsLetter(s[1]) then None else
    var k := 1 + Run(s[1..], IsAlnum);
    if k < |s| && s[k] == '_' then None else
    match LastStyle(s, k, Run(s[k..], IsNotTagEnd))
    case None => None
    case Some(o) => if o.length == 0 then None else Some(Opener(Fold(s[1..k]), o.style, o.length))
  }

  lemma NoOpener(s: string)
    requires s != "" && s[0] != '<'
    ensures OpenerAt(s).None?
  {
    hide Run;
  }

  /** `display\s*:\s*none` somewhere in a lower-cased style. */
  predicate HidesAt(s: string) {
    && StartsWith(s, "display")
    && var a := 7 + Run(s[7..], IsSpace);
       a < |s| && s[a] == ':' && StartsWith(s[a + 1 + Run(s[a + 1..], IsSpace)..], "none")
  }

  predicate IsHidden(o: Opener) {
    exists i | 0 <= i <= |o.style| :: HidesAt(Lower(o.style)[i..])
  }

  /** Where the element of name `tag` that is `depth` deep ends in `s`. */
  function ElementEnd(s: string, tag: string, depth: nat): (r: Option<nat>)
    requires depth > 0
    ensures r.Some? ==> r.value <= |s|
    decreases |s|
  {
    if s == "" then None
    else
      match NamedTag(s, Optional, {tag})
      case None => Shift(ElementEnd(s[1..], tag, depth), 1)
      case Some(n) =>
        if StartsWith(s, "</") then
          if depth == 1 then Some(n) else Shift(ElementEnd(s[n..], tag, depth - 1), n)
        else Shift(ElementEnd(s[n..], tag, depth + 1), n)
  }

  predicate IsSelfClosed(s: string, o: Opener)
    requires 0 < o.length <= |s|
  {
    o.tag in HIDDEN_VOID || (o.length > 1 && s[o.length - 2] == '/' && s[o.length - 1] == '>')
  }

  /** How much of `s` a hidden opener at its head takes with it: its element,
      or only itself when it is void or nothing closes it. */
  function HiddenLength(s: string, o: Opener): (n: nat)
    requires 0 < o.length <= |s|
    ensures o.length <= n <= |s|
  {
    if IsSelfClosed(s, o) then o.length
    else
      match ElementEnd(s[o.length..], o.tag, 1)
      case None => o.length
      case Some(k) => o.length + k
  }

  /** `dropHiddenElements` from the position searched next. */
  function WithoutHidden(s: string): string
    decreases |s|
  {
    if s == "" then ""
    else
      match OpenerAt(s)
      case None => [s[0]] + WithoutHidden(s[1..])
      case Some(o) =>
        if IsHidden(o) then WithoutHidden(s[HiddenLength(s, o)..])
        else s[..o.length] + WithoutHidden(s[o.length..])
  }

  // ---- Lines

  function TidyLine(line: string): string {
    Trim(ReplaceAll(line, LineBlankAt))
  }

  function TidyEach(ls: seq<string>): (r: seq<string>)
    ensures |r| == |ls|
  {
    seq(|ls|, i requires 0 <= i < |ls| => TidyLine(ls[i]))
  }

  function TidyLines(text: string): string {
    Trim(ReplaceAll(Join(TidyEach(Split(ReplaceAll(text, InvisibleAt), '\n')), '\n'), BlankLinesAt))
  }

  // ---- The converter

  /** `<\/?[a-z][^>]*>` at the head of `s`. */
  predicate TagLikeAt(s: string) {
    && |s| > 1 && s[0] == '<'
    && var p := if s[1] == '/' then 2 else 1;
       p < |s| && IsLetter(s[p]) && '>' in s[p + 1..]
  }

  /** Whether a body is HTML: it has something that looks like a tag. */
  predicate HasTag(s: string) {
    exists i | 0 <= i <= |s| :: TagLikeAt(s[i..])
  }

  predicate HasTagOrComment(s: string) {
    HasTag(s) || exists i | 0 <= i <= |s| :: StartsWith(s[i..], "<!--")
  }

  /** Block tags and line breaks to newlines, all other tags away. */
  function BreakTags(html: string): string {
    var s := ReplaceAll(html, BrAt);
    var s := ReplaceAll(s, ItemAt);
    var s := ReplaceAll(s, ParagraphAt);
    var s := ReplaceAll(s, LineTagAt);
    var s := ReplaceAll(s, RuleAt);
    var s := ReplaceAll(s, CellEndAt);
    var s := ReplaceAll(s, AnyTagAt);
    ReplaceAll(s, CutTagAt)
  }

  function HtmlToQuotedText(html: string): string {
    if html == "" then "" else
    var input := ReplaceAll(html, LineEndAt);
    if !HasTagOrComment(input) then TidyLines(DecodeEntities(input))
    else
      var source := ReplaceAll(WithoutHidden(DropNonContent(input)), SourceBlankAt);
      TidyLines(DecodeEntities(BreakTags(source)))
  }

  // ---- The loop of dropHiddenElements

  method DropHiddenElements(html: string) returns (out: string)
    ensures out == WithoutHidden(html)
  {
    hide WithoutHidden, OpenerAt, IsHidden, HiddenLength, IsSelfClosed, ElementEnd;
    out := html;
    var searchFrom: nat := 0;
    assert out[0..] == html;
    while true
      invariant searchFrom <= |out|
      invariant out[..searchFrom] + WithoutHidden(out[searchFrom..]) == WithoutHidden(html)
      decreases |out| - searchFrom
    {
      var start := NextOpener(out, searchFrom);
      if start.None? {
        return;
      }
      var at := start.value;
      var o := OpenerAt(out[at..]).value;
      assert out[..at] == out[..searchFrom] + out[searchFrom..at];
      WithoutHiddenOpener(out, at, o);
      if !IsHidden(o) {
        searchFrom := at + o.length;
        continue;
      }
      var end := at + o.length;
      if !IsSelfClosed(out[at..], o) {
        var close := FindElementEnd(out, end, o.tag);
        if close.Some? {
          end := close.value;
        }
      }
      HiddenEnd(out, at, o);
      var head, tail := out[..at], out[end..];
      out := head + tail;
      assert out[..at] == head && out[at..] == tail;
      searchFrom := at;
    }
  }

  /** Where the open element of name `tag` ends from `from` on: the loop over its
      tags with their depth. */
  method FindElementEnd(s: string, from: nat, tag: string) returns (end: Option<nat>)
    requires from <= |s|
    ensures end == Shift(ElementEnd(s[from..], tag, 1), from)
  {
    hide ElementEnd, NamedTag, StartsWith;
    var i, depth: nat := from, 1;
    while i < |s|
      invariant from <= i <= |s| && depth > 0
      invariant Shift(ElementEnd(s[i..], tag, depth), i) == Shift(ElementEnd(s[from..], tag, 1), from)
    {
      ElementEndStep(s, i, tag, depth);
      match NamedTag(s[i..], Optional, {tag}) {
        case None => i := i + 1;
        case Some(n) =>
          depth := if StartsWith(s[i..], "</") then depth - 1 else depth + 1;
          i := i + n;
          if depth == 0 {
            return Some(i);
          }
      }
    }
    NoElementEnd(s, tag, depth);
    return None;
  }

  lemma {:induction false} ElementEndStep(s: string, i: nat, tag: string, depth: nat)
    requires i < |s| && depth > 0
    ensures var n := NamedTag(s[i..], Optional, {tag});
      Shift(ElementEnd(s[i..], tag, depth), i) ==
        if n.None? then Shift(ElementEnd(s[i + 1..], tag, depth), i + 1)
        else
          var d := if StartsWith(s[i..], "</") then depth - 1 else depth + 1;
          if d == 0 then Some(i + n.value) else Shift(ElementEnd(s[i + n.value..], tag, d), i + n.value)
  {
    hide NamedTag, StartsWith;
    assert s[i..][1..] == s[i + 1..];
    var n := NamedTag(s[i..], Optional, {tag});
    assert n.Some? ==> s[i..][n.value..] == s[i + n.value..];
  }

  lemma {:induction false} NoElementEnd(s: string, tag: string, depth: nat)
    requires depth > 0
    ensures ElementEnd(s[|s|..], tag, depth).None?
  {
  }

  lemma HiddenEnd(s: string, at: nat, o: Opener)
    requires at < |s| && 0 < o.length <= |s[at..]|
    ensures HiddenLength(s[at..], o) ==
      if IsSelfClosed(s[at..], o) || ElementEnd(s[at + o.length..], o.tag, 1).None? then o.length
      else o.length + ElementEnd(s[at + o.length..], o.tag, 1).value
  {
    hide IsSelfClosed, ElementEnd;
    assert s[at..][o.length..] == s[at + o.length..];
  }

  lemma {:induction false} WithoutHiddenStep(s: string)
    ensures s == "" ==> WithoutHidden(s) == ""
    ensures s != "" && OpenerAt(s).None? ==> WithoutHidden(s) == s[..1] + WithoutHidden(s[1..])
    ensures OpenerAt(s).Some? ==>
      var o := OpenerAt(s).value;
      WithoutHidden(s) == if IsHidden(o) then WithoutHidden(s[HiddenLength(s, o)..])
                          else s[..o.length] + WithoutHidden(s[o.length..])
  {
    hide OpenerAt, IsHidden, HiddenLength;
  }

  lemma SuffixSlices(s: string, at: nat, n: nat, rest: string)
    requires at <= |s| && n <= |s| - at
    ensures s[at..][n..] == s[at + n..] && s[..at] + (s[at..][..n] + rest) == s[..at + n] + rest
  {
    assert s[..at] + s[at..][..n] == s[..at + n];
  }

  lemma WithoutHiddenOpener(s: string, at: nat, o: Opener)
    requires at < |s| && OpenerAt(s[at..]) == Some(o)
    ensures var end := at + HiddenLength(s[at..], o);
      IsHidden(o) ==> WithoutHidden(s[at..]) == WithoutHidden(s[end..])
    ensures var end := at + o.length;
      !IsHidden(o) ==> s[..at] + WithoutHidden(s[at..]) == s[..end] + WithoutHidden(s[end..])
  {
    hide *;
    var n := if IsHidden(o) then HiddenLength(s[at..], o) else o.length;
    WithoutHiddenStep(s[at..]);
    SuffixSlices(s, at, n, WithoutHidden(s[at + n..]));
  }

  /** `opener.exec`: the first opener at or after `from`. */
  method NextOpener(s: string, from: nat) returns (r: Option<nat>)
    requires from <= |s|
    ensures r.None? ==> WithoutHidden(s[from..]) == s[from..]
    ensures r.Some? ==> from <= r.value < |s| && OpenerAt(s[r.value..]).Some?
    ensures r.Some? ==> WithoutHidden(s[from..]) == s[from..r.value] + WithoutHidden(s[r.value..])
  {
    hide WithoutHidden, OpenerAt;
    var i := from;
    while i < |s|
      invariant from <= i <= |s|
      invariant WithoutHidden(s[from..]) == s[from..i] + WithoutHidden(s[i..])
    {
      if OpenerAt(s[i..]).Some? {
        return Some(i);
      }
      WithoutHiddenSkips(s, i);
      assert s[from..i + 1] == s[from..i] + [s[i]];
      i := i + 1;
    }
    assert s[from..|s|] == s[from..];
    WithoutHiddenSkips(s, |s|);
    return None;
  }

  lemma WithoutHiddenSkips(s: string, i: nat)
    requires i <= |s|
    ensures i == |s| ==> WithoutHidden(s[i..]) == ""
    ensures i < |s| && OpenerAt(s[i..]).None? ==> WithoutHidden(s[i..]) == [s[i]] + WithoutHidden(s[i + 1..])
  {
    hide OpenerAt, IsHidden, HiddenLength;
    if i < |s| {
      assert s[i..][1..] == s[i + 1..];
    }
  }
}
