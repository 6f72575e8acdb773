/** What `htmlToQuotedText` of `shared/quoted-text.ts` makes of an HTML page, as
    laws about texts: a table says what each tag stands for. */
module QuotedPages {
  import opened Strings
  import opened Entities
  import opened Sanitizer
  import opened QuotedText
  import opened TidyText
  import opened HiddenElements
  import opened HiddenStyles
  import Laws = SanitizerLaws
  import Pages = QuoteRoundTrip

  // ---- Pieces of a page

  /** A complete piece of a page. `Alone` and `Hidden` are elements that are hidden. */
  datatype Chunk =
    | Letter(c: char)
    | Tag(inner: string)
    | Comment(text: string)
    | Block(name: string, attrs: string, content: string, end: string, blank: string)
    | Alone(opening: Styled)
    | Hidden(opening: Styled, inside: seq<Item>, closing: string)

  function BlockText(name: string, attrs: string, content: string, end: string, blank: string): string {
    Angled(name + attrs) + (content + Angled("/" + end + blank))
  }

  function ChunkText(c: Chunk): string {
    match c
    case Letter(c) => [c]
    case Tag(inner) => Angled(inner)
    case Comment(text) => "<!--" + text + "-->"
    case Block(name, attrs, content, end, blank) => BlockText(name, attrs, content, end, blank)
    case Alone(t) => TextOf(t)
    case Hidden(t, inside, closing) => TextOf(t) + (ItemsText(inside) + Angled(closing))
  }

  /** The pieces gone after `stage` passes of removal: comments, then what is no
      content, then what is hidden. */
  predicate IsGone(c: Chunk, stage: nat) {
    (stage >= 1 && c.Comment?) || (stage >= 2 && c.Block?) || (stage >= 3 && (c.Alone? || c.Hidden?))
  }

  function ChunkAt(c: Chunk, stage: nat): string {
    if IsGone(c, stage) then "" else ChunkText(c)
  }

  function TextAt(cs: seq<Chunk>, stage: nat): string {
    if cs == [] then "" else ChunkAt(cs[0], stage) + TextAt(cs[1..], stage)
  }

  function Html(cs: seq<Chunk>): string {
    TextAt(cs, 0)
  }

  const NO_CONTENT: set<string> := {"head", "style", "script", "title"}

  /** `inner` is a tag of one of `names`. */
  predicate IsOneOf(inner: string, closing: bool, names: set<string>) {
    exists n | n in names :: IsTagOf(inner, closing, n)
  }

  /** `<!--` starts somewhere in `s`. */
  predicate HasCommentStart(s: string) {
    exists i | 0 <= i <= |s| :: StartsWith(s[i..], "<!--")
  }

  /** The tag hides nothing: it has no quoted style, or closes an element, or its
      last quoted style does not hide. */
  ghost predicate IsShown(inner: string) {
    || !HasStyleQuote("<" + inner) || inner == "" || !IsLetter(inner[0])
    || exists t: Styled :: IsStyled(t) && inner == InnerOf(t) && !Hides(t.style)
  }

  /** A tag that starts no comment and opens no element without content. */
  predicate IsOrdinary(inner: string) {
    AllChars(inner, IsNoBracket) && !StartsWith(inner, "!--") && !IsOneOf(inner, false, NO_CONTENT)
  }

  predicate AreOrdinary(items: seq<Item>) {
    forall i | 0 <= i < |items| ::
      match items[i] case Text(c) => IsNoBracket(c) case Element(inner) => IsOrdinary(inner)
  }

  /** `cs[0]` is what it says in front of `rest`, or of `bare`, the same without
      comments. */
  ghost predicate IsChunk(c: Chunk, rest: string, bare: string) {
    match c
    case Letter(c) => c != '<'
    case Tag(inner) =>
      && AllChars(inner, IsNoBracket) && IsShown(inner) && !IsOneOf(inner, false, {"style", "script"})
      && (StartsWith(inner, "!--") ==> !Laws.HasCommentEnd(inner[3..] + ">" + rest))
      && forall n | n in {"head", "title"} :: IsTagOf(inner, false, n) ==> !Laws.HasEnd(bare, n)
    case Comment(text) => !Laws.HasCommentEnd(text)
    case Block(name, attrs, content, end, blank) =>
      && Fold(name) in NO_CONTENT && AllChars(attrs, IsNoBracket) && (attrs == "" || !IsWordChar(attrs[0]))
      && !HasCommentStart(content) && !Laws.HasEnd(content, Fold(name))
      && Fold(end) == Fold(name) && AllChars(blank, IsSpace)
    case Alone(t) => IsStyled(t) && Hides(t.style) && StandsAlone(t) && Fold(t.name) !in NO_CONTENT
    case Hidden(t, inside, closing) =>
      && IsStyled(t) && Hides(t.style) && !StandsAlone(t) && Fold(t.name) !in NO_CONTENT
      && AreOrdinary(inside) && IsBalanced(inside, Fold(t.name))
      && AllChars(closing, IsNoBracket) && IsTagOf(closing, true, Fold(t.name))
  }

  /** The page's pieces are complete, with `tail` after them. */
  ghost predicate ArePieces(cs: seq<Chunk>, tail: string) {
    cs == [] || (IsChunk(cs[0], TextAt(cs[1..], 0) + tail, TextAt(cs[1..], 1) + tail) && ArePieces(cs[1..], tail))
  }

  // ---- What is left of them

  const LINES: set<string> := {
    "div", "tr", "table", "tbody", "thead", "tfoot", "section", "article", "header", "footer",
    "dl", "dt", "dd", "center", "address"
  }

  const PARAGRAPHS: set<string> :=
    {"p", "h1", "h2", "h3", "h4", "h5", "h6", "blockquote", "pre", "ul", "ol"}

  /** `</td>` or `</th>`, white space aside. */
  predicate IsCellEnd(inner: string) {
    && |inner| >= 3 && inner[0] == '/' && (Fold(inner[1..3]) == "td" || Fold(inner[1..3]) == "th")
    && AllChars(inner[3..], IsSpace)
  }

  /** What a tag stands for in the quote. */
  function Entry(inner: string): string {
    if IsOneOf(inner, false, {"br", "hr"}) || IsOneOf(inner, false, LINES) || IsOneOf(inner, true, LINES) then "\n"
    else if IsOneOf(inner, false, {"li"}) then "\n\U{2022} "
    else if IsOneOf(inner, false, PARAGRAPHS) || IsOneOf(inner, true, PARAGRAPHS) then "\n\n"
    else if IsCellEnd(inner) then " "
    else ""
  }

  predicate IsBlankChar(c: char) {
    c == ' ' || c == '\t' || c == '\n' || c == '\U{C}'
  }

  /** What is left of a page: runs of blanks become one, tags their entries. */
  function Quoted(cs: seq<Chunk>, inRun: bool): string {
    if cs == [] then ""
    else
      match cs[0]
      case Letter(c) =>
        if IsBlankChar(c) then (if inRun then "" else " ") + Quoted(cs[1..], true) else [c] + Quoted(cs[1..], false)
      case Tag(inner) => Entry(inner) + Quoted(cs[1..], false)
      case Comment(_) => Quoted(cs[1..], inRun)
      case Block(_, _, _, _, _) => Quoted(cs[1..], inRun)
      case Alone(_) => Quoted(cs[1..], inRun)
      case Hidden(_, _, _) => Quoted(cs[1..], inRun)
  }

  // ---- Tags in a pass

  ghost predicate Skips(m: Matcher, inner: string) {
    forall x: string :: m(Angled(inner) + x).None?
  }

  lemma {:induction false} TagCopied(inner: string, r: string, m: Matcher)
    requires AllChars(inner, IsNoBracket) && Pages.MatchesTags(m) && m(Angled(inner) + r).None?
    ensures ReplaceAll(Angled(inner) + r, m) == Angled(inner) + ReplaceAll(r, m)
  {
    hide *;
    NoOpening(inner);
    Pages.CopyTag(Angled(inner), r, m);
  }

  lemma Join3(a: string, b: string, c: string)
    ensures a + b + c == a + (b + c)
  {
  }

  lemma NothingLeft(r: string, t: string)
    ensures "" + r == r && ReplaceAll("", LineEndAt) == "" && "" + t == t
  {
  }

  lemma OneSkips(m: Matcher, inner: string, r: string)
    requires Skips(m, inner)
    ensures m(Angled(inner) + r).None?
  {
  }

  /** The items of `items` are left alone by `m`. */
  ghost predicate AreSkipped(items: seq<Item>, m: Matcher) {
    forall i | 0 <= i < |items| ::
      match items[i]
      case Text(c) => c != '<'
      case Element(inner) => AllChars(inner, IsNoBracket) && Skips(m, inner)
  }

  lemma SkippedCons(items: seq<Item>, m: Matcher)
    requires items != [] && AreSkipped(items, m)
    ensures AreSkipped(items[1..], m)
    ensures match items[0]
      case Text(c) => c != '<'
      case Element(inner) => AllChars(inner, IsNoBracket) && Skips(m, inner)
  {
    hide AllChars, Skips;
  }

  lemma OneText(c: char)
    ensures ItemText(Text(c)) == [c] && (c != '<' ==> '<' !in [c])
  {
  }

  lemma {:induction false} ItemsCopied(items: seq<Item>, r: string, m: Matcher)
    requires Pages.MatchesTags(m) && AreSkipped(items, m)
    ensures ReplaceAll(ItemsText(items) + r, m) == ItemsText(items) + ReplaceAll(r, m)
  {
    hide *;
    if items == [] {
      NoText();
      NothingLeft(r, ReplaceAll(r, m));
    } else {
      SkippedCons(items, m);
      var x := ItemsText(items[1..]) + r;
      ItemsTextCons(items);
      Join3(ItemText(items[0]), ItemsText(items[1..]), r);
      Join3(ItemText(items[0]), ItemsText(items[1..]), ReplaceAll(r, m));
      ItemsCopied(items[1..], r, m);
      match items[0] {
        case Text(c) =>
          OneText(c);
          Pages.CopyText([c], x, m);
        case Element(inner) =>
          ElementText(inner);
          OneSkips(m, inner, x);
          TagCopied(inner, x, m);
      }
    }
  }

  lemma ElementText(inner: string)
    ensures ItemText(Element(inner)) == Angled(inner)
  {
  }

  // ---- The name of a tag

  function Naming(inner: string): string {
    if inner != "" && inner[0] == '/' then inner[1..] else inner
  }

  /** The tag's name, in lower case. */
  function Word(inner: string): string {
    Fold(Naming(inner)[..Run(Naming(inner), IsWordChar)])
  }

  predicate IsClosing(inner: string) {
    inner != "" && inner[0] == '/'
  }

  ghost predicate AreWords(names: set<string>) {
    forall n | n in names :: IsWord(n)
  }

  lemma WordIs(inner: string)
    ensures var t := "<" + inner;
      && NameStart(t) <= |t| && NameStart(t) == (if IsClosing(inner) then 2 else 1)
      && Fold(NameFrom(t, NameStart(t))) == Word(inner)
  {
    hide Run, Fold, IsWordChar, NameFrom;
    var t := "<" + inner;
    StartOfName(inner);
    assert inner[0..] == inner;
    NameFromTail(t, NameStart(t), Naming(inner));
  }

  /** A named tag ends with the tag. */
  lemma NamedIs(inner: string, r: string, slash: Slash, names: set<string>)
    requires AllChars(inner, IsNoBracket)
    ensures NamedTag(Angled(inner) + r, slash, names) ==
      if (IsClosing(inner) && slash.Without?) || (!IsClosing(inner) && slash.Required?) || Word(inner) !in names then None
      else Some(|inner| + 2)
  {
    hide NamedTag, AllChars, NameStart, NameFrom, Fold, Word;
    var t := "<" + inner;
    TagBody(inner);
    assert Angled(inner) + r == t + (">" + r) && t[0] == '<';
    WordIs(inner);
    NamedEnds(t, ">" + r, slash, names);
  }

  lemma TagWord(inner: string, closing: bool, n: string)
    requires IsWord(n)
    ensures IsTagOf(inner, closing, n) <==> closing == IsClosing(inner) && Word(inner) == n
  {
    hide Run, Fold, IsTagOf, IsWord;
    var p := if IsClosing(inner) then 1 else 0;
    assert inner[0..] == inner;
    NameIsTag(inner, p, n);
    if IsTagOf(inner, closing, n) {
      OneMark(inner, closing, n);
    }
  }

  lemma OneOfIff(inner: string, closing: bool, names: set<string>)
    requires AreWords(names)
    ensures IsOneOf(inner, closing, names) <==> closing == IsClosing(inner) && Word(inner) in names
  {
    hide IsTagOf, IsWord, Word, IsClosing;
    if IsOneOf(inner, closing, names) {
      var n :| n in names && IsTagOf(inner, closing, n);
      TagWord(inner, closing, n);
    }
    if Word(inner) in names {
      TagWord(inner, closing, Word(inner));
    }
  }

  lemma ContentWords()
    ensures AreWords(NO_CONTENT) && AreWords({"head", "title"}) && AreWords({"style", "script"}) && NO_CONTENT == NON_CONTENT
  {
  }

  lemma BreakWords()
    ensures AreWords({"br", "hr"}) && AreWords({"li"})
  {
  }

  lemma {:induction false} LineWords()
    ensures AreWords(LINES)
  {
  }

  lemma {:induction false} LineNames()
    ensures LINES == LINE_TAGS
  {
  }

  lemma ParagraphWords()
    ensures AreWords(PARAGRAPHS) && PARAGRAPHS == PARAGRAPH_TAGS
  {
  }

  // ---- Comments

  lemma CommentMatcher()
    ensures Pages.MatchesTags(CommentAt)
  {
    forall x: string | x != "" && x[0] != '<' ensures CommentAt(x).None? {
      assert |x| >= 4 ==> x[..4][0] == x[0];
    }
  }

  lemma CommentHit(text: string, r: string)
    requires !Laws.HasCommentEnd(text)
    ensures CommentAt("<!--" + text + "-->" + r) == Some(Hit(|"<!--" + text + "-->"|, ""))
  {
    hide Laws.HasCommentEnd, Find;
    var s := "<!--" + text + "-->" + r;
    assert s[..4] == "<!--" && s[4..] == text + ("-->" + r);
    Laws.CommentEnds(text, r);
  }

  lemma CommentHead(inner: string, r: string)
    requires AllChars(inner, IsNoBracket)
    ensures StartsWith(Angled(inner) + r, "<!--") <==> StartsWith(inner, "!--")
    ensures |inner| >= 3 ==> |Angled(inner) + r| >= 4 && (Angled(inner) + r)[4..] == inner[3..] + ">" + r
  {
    var s := Angled(inner) + r;
    if |inner| >= 3 {
      assert s[..4] == ['<'] + inner[..3] && s[..4][1..] == inner[..3];
    } else {
      StartsDifferently(s, "<!--", |inner| + 1);
    }
  }

  lemma NoCommentAt(inner: string, r: string)
    requires AllChars(inner, IsNoBracket)
    requires StartsWith(inner, "!--") ==> !Laws.HasCommentEnd(inner[3..] + ">" + r)
    ensures CommentAt(Angled(inner) + r).None?
  {
    CommentHead(inner, r);
    hide Angled, Laws.HasCommentEnd, Find, AllChars;
    if StartsWith(inner, "!--") {
      Laws.NoComment(inner[3..] + ">" + r);
    }
  }

  lemma OrdinaryCommentSkips(inner: string)
    requires AllChars(inner, IsNoBracket) && !StartsWith(inner, "!--")
    ensures Skips(CommentAt, inner)
  {
    hide *;
    forall x: string ensures CommentAt(Angled(inner) + x).None? {
      NoCommentAt(inner, x);
    }
    SkipsAll(CommentAt, inner);
  }

  lemma SkipsAll(m: Matcher, inner: string)
    requires forall x: string :: m(Angled(inner) + x).None?
    ensures Skips(m, inner)
  {
    hide Angled;
  }

  /** No comment starts in `w`, or across its end before `</`. */
  lemma {:induction false} ContentKeepsComments(w: string, e: string)
    requires !HasCommentStart(w) && |e| >= 2 && e[0] == '<' && e[1] == '/'
    ensures ReplaceAll(w + e, CommentAt) == w + ReplaceAll(e, CommentAt)
  {
    forall i | 0 <= i < |w| ensures CommentAt(w[i..] + e).None? {
      NoCommentAcross(w, i, e);
    }
    hide CommentAt, HasCommentStart;
    ReplaceAllCopies(w, e, CommentAt);
  }

  lemma NoCommentAcross(w: string, i: nat, e: string)
    requires !HasCommentStart(w) && |e| >= 2 && e[0] == '<' && e[1] == '/' && i < |w|
    ensures CommentAt(w[i..] + e).None?
  {
    var u, s := w[i..], w[i..] + e;
    assert !StartsWith(w[i..], "<!--");
    if |u| >= 4 {
      assert u[..4] == s[..4];
    } else {
      StartsDifferently(s, "<!--", |u|);
    }
  }

  lemma StartsDifferently(s: string, p: string, k: nat)
    requires k < |s| && k < |p| && s[k] != p[k]
    ensures !StartsWith(s, p)
  {
    assert |p| <= |s| ==> s[..|p|][k] == s[k];
  }

  // ---- Pieces of tags only

  /** A hidden piece as its tags and letters. */
  function ItemsOf(c: Chunk): seq<Item> {
    match c
    case Alone(t) => [Element(InnerOf(t))]
    case Hidden(t, inside, closing) => [Element(InnerOf(t))] + inside + [Element(closing)]
    case Letter(_) => []
    case Tag(_) => []
    case Comment(_) => []
    case Block(_, _, _, _, _) => []
  }

  lemma OneItem(it: Item)
    ensures ItemsText([it]) == ItemText(it)
  {
    assert [it][1..] == [];
    assert ItemText(it) + "" == ItemText(it);
  }

  lemma {:induction false} ItemsTextJoin(a: seq<Item>, b: seq<Item>)
    ensures ItemsText(a + b) == ItemsText(a) + ItemsText(b)
  {
    ItemsTextSplit(a + b, |a|);
    assert (a + b)[..|a|] == a && (a + b)[|a|..] == b;
    hide ItemsText;
  }

  lemma ItemsOfText(c: Chunk)
    requires c.Alone? || c.Hidden?
    ensures ItemsText(ItemsOf(c)) == ChunkText(c)
  {
    hide ItemsText, ItemText, InnerOf, Angled;
    var first := Element(InnerOf(c.opening));
    OneItem(first);
    ElementText(InnerOf(c.opening));
    OpeningText(c.opening);
    if c.Hidden? {
      OneItem(Element(c.closing));
      ElementText(c.closing);
      ItemsTextJoin([first], c.inside);
      ItemsTextJoin([first] + c.inside, [Element(c.closing)]);
      Join3(TextOf(c.opening), ItemsText(c.inside), Angled(c.closing));
    }
  }

  lemma OpeningText(t: Styled)
    ensures TextOf(t) == Angled(InnerOf(t))
  {
    hide InnerOf;
  }

  lemma StyledWord(t: Styled)
    requires IsStyled(t)
    ensures !IsClosing(InnerOf(t)) && !StartsWith(InnerOf(t), "!--") && Word(InnerOf(t)) == Fold(t.name)
  {
    hide *;
    StyledIs(t);
    StyledTail(t);
    InnerIs(t);
    NameFirst(t.name, t.before + StylePart(t));
  }

  lemma InnerIs(t: Styled)
    ensures InnerOf(t) == t.name + (t.before + StylePart(t))
  {
    hide StylePart;
  }

  lemma NameFirst(name: string, r: string)
    requires IsPlainName(name) && r != "" && !IsWordChar(r[0])
    ensures !IsClosing(name + r) && !StartsWith(name + r, "!--") && Word(name + r) == Fold(name)
  {
    hide Fold;
    var s := name + r;
    assert s[0] == name[0];
    StartsDifferently(s, "!--", 0);
    RunIs(s, IsWordChar, |name|);
    assert s[..|name|] == name;
  }

  lemma OrdinaryOpening(t: Styled)
    requires IsStyled(t) && Fold(t.name) !in NO_CONTENT
    ensures IsOrdinary(InnerOf(t))
  {
    hide *;
    StyledIs(t);
    StyledWord(t);
    ContentWords();
    OneOfIff(InnerOf(t), false, NO_CONTENT);
    IsOrdinaryIf(InnerOf(t));
  }

  lemma IsOrdinaryIf(inner: string)
    requires AllChars(inner, IsNoBracket) && !StartsWith(inner, "!--") && !IsOneOf(inner, false, NO_CONTENT)
    ensures IsOrdinary(inner)
  {
    hide AllChars, IsOneOf;
  }

  lemma OrdinaryClosing(inner: string, n: string)
    requires AllChars(inner, IsNoBracket) && IsTagOf(inner, true, n)
    ensures IsOrdinary(inner)
  {
    StartsDifferently(inner, "!--", 0);
    hide StartsWith, AllChars;
  }

  lemma HiddenOrdinary(c: Chunk, rest: string, bare: string)
    requires (c.Alone? || c.Hidden?) && IsChunk(c, rest, bare)
    ensures AreOrdinary(ItemsOf(c))
  {
    hide IsStyled, Hides, StandsAlone, Fold, IsBalanced, IsTagOf, IsOrdinary, InnerOf, AllChars, NO_CONTENT;
    OrdinaryOpening(c.opening);
    if c.Hidden? {
      OrdinaryClosing(c.closing, Fold(c.opening.name));
    }
  }

  // ---- The comment pass

  lemma OrdinaryIs(inner: string)
    requires IsOrdinary(inner)
    ensures AllChars(inner, IsNoBracket) && !StartsWith(inner, "!--") && !IsOneOf(inner, false, NO_CONTENT)
  {
  }

  lemma SkippedBy(items: seq<Item>, m: Matcher)
    requires AreOrdinary(items)
    requires forall inner | IsOrdinary(inner) :: Skips(m, inner)
    ensures AreSkipped(items, m)
  {
    hide IsOrdinary, Skips, AllChars;
    forall i | 0 <= i < |items|
      ensures match items[i] case Text(c) => c != '<' case Element(inner) => AllChars(inner, IsNoBracket) && Skips(m, inner)
    {
      if items[i].Element? {
        OrdinaryIs(items[i].inner);
      }
    }
  }

  lemma {:induction false} HiddenCopied(c: Chunk, rest: string, bare: string, r: string, m: Matcher)
    requires (c.Alone? || c.Hidden?) && IsChunk(c, rest, bare) && Pages.MatchesTags(m)
    requires forall inner | IsOrdinary(inner) :: Skips(m, inner)
    ensures ReplaceAll(ChunkText(c) + r, m) == ChunkText(c) + ReplaceAll(r, m)
  {
    hide *;
    HiddenOrdinary(c, rest, bare);
    SkippedBy(ItemsOf(c), m);
    ItemsOfText(c);
    ItemsCopied(ItemsOf(c), r, m);
  }

  lemma CommentSkips()
    ensures forall inner | IsOrdinary(inner) :: Skips(CommentAt, inner)
  {
    hide *;
    forall inner | IsOrdinary(inner) ensures Skips(CommentAt, inner) {
      OrdinaryIs(inner);
      OrdinaryCommentSkips(inner);
    }
  }

  lemma BlockIs(name: string, attrs: string, content: string, end: string, blank: string, r: string)
    ensures BlockText(name, attrs, content, end, blank) + r
         == Angled(name + attrs) + (content + (Angled("/" + end + blank) + r))
  {
    hide Angled;
  }

  lemma NameIsPlain(name: string)
    requires Fold(name) in NO_CONTENT
    ensures IsPlainName(name) && AllChars(name, IsNoBracket)
  {
    hide NO_CONTENT;
    ContentNames(Fold(name));
    forall i | 0 <= i < |name| ensures IsLetter(name[i]) {
      assert Fold(name)[i] == FoldChar(name[i]);
    }
  }

  lemma ContentNames(n: string)
    requires n in NO_CONTENT
    ensures n != "" && (forall i | 0 <= i < |n| :: 'a' <= n[i] <= 'z') && IsWord(n)
  {
  }

  lemma JoinFree(a: string, b: string)
    requires AllChars(a, IsNoBracket) && AllChars(b, IsNoBracket)
    ensures AllChars(a + b, IsNoBracket)
  {
  }

  lemma BlockHead(name: string, attrs: string)
    requires Fold(name) in NO_CONTENT && AllChars(attrs, IsNoBracket) && (attrs == "" || !IsWordChar(attrs[0]))
    ensures AllChars(name + attrs, IsNoBracket) && !StartsWith(name + attrs, "!--")
    ensures !IsClosing(name + attrs) && Word(name + attrs) == Fold(name)
  {
    hide Fold, NO_CONTENT, AllChars;
    NameIsPlain(name);
    JoinFree(name, attrs);
    var s := name + attrs;
    assert s[0] == name[0];
    StartsDifferently(s, "!--", 0);
    RunIs(s, IsWordChar, |name|);
    assert s[..|name|] == name;
  }

  lemma SpaceIsFree(blank: string)
    requires AllChars(blank, IsSpace)
    ensures AllChars(blank, IsNoBracket)
  {
  }

  lemma SlashFree()
    ensures AllChars("/", IsNoBracket)
  {
  }

  lemma BlockEnd(end: string, blank: string)
    requires Fold(end) in NO_CONTENT && AllChars(blank, IsSpace)
    ensures AllChars("/" + end + blank, IsNoBracket) && !StartsWith("/" + end + blank, "!--") && IsClosing("/" + end + blank)
  {
    hide Fold, NO_CONTENT, AllChars;
    NameIsPlain(end);
    SpaceIsFree(blank);
    SlashFree();
    JoinFree("/", end);
    JoinFree("/" + end, blank);
    StartsDifferently("/" + end + blank, "!--", 0);
  }

  lemma {:induction false} CommentKeepsBlock(c: Chunk, rest: string, bare: string, r: string)
    requires c.Block? && IsChunk(c, rest, bare)
    ensures ReplaceAll(ChunkText(c) + r, CommentAt) == ChunkText(c) + ReplaceAll(r, CommentAt)
  {
    hide AllChars, IsSpace, NO_CONTENT, Laws.HasEnd, HasCommentStart, ReplaceAll, CommentAt, Fold, BlockText, Pages.MatchesTags,
      StartsWith, IsClosing, Word, Angled, Skips, Pages.MatchesTags;
    var Block(name, attrs, content, end, blank) := c;
    var head, foot := name + attrs, "/" + end + blank;
    BlockHead(name, attrs);
    BlockEnd(end, blank);
    CommentMatcher();
    OrdinaryCommentSkips(head);
    OrdinaryCommentSkips(foot);
    var x := Angled(foot) + r;
    OneSkips(CommentAt, foot, r);
    TagCopied(foot, r, CommentAt);
    FootStarts(end, blank, r);
    ContentKeepsComments(content, x);
    OneSkips(CommentAt, head, content + x);
    TagCopied(head, content + x, CommentAt);
    BlockIs(name, attrs, content, end, blank, r);
    BlockIs(name, attrs, content, end, blank, ReplaceAll(r, CommentAt));
  }

  lemma FootStarts(end: string, blank: string, r: string)
    ensures var x := Angled("/" + end + blank) + r; |x| >= 2 && x[0] == '<' && x[1] == '/'
  {
  }

  lemma {:induction false} CommentChunk(c: Chunk, r: string, bare: string)
    requires IsChunk(c, r, bare)
    ensures ReplaceAll(ChunkText(c) + r, CommentAt) == ChunkAt(c, 1) + ReplaceAll(r, CommentAt)
  {
    hide ReplaceAll, CommentAt, Pages.MatchesTags, IsStyled, Hides, StandsAlone, Fold, IsBalanced, IsTagOf, IsOrdinary, BlockText,
      InnerOf, AllChars, NO_CONTENT, Laws.HasEnd, Laws.HasCommentEnd, Angled, AreOrdinary, Skips, StartsWith, IsOneOf, IsShown, TextOf;
    CommentMatcher();
    match c {
      case Letter(x) => Pages.CopyText([x], r, CommentAt);
      case Tag(inner) =>
        NoCommentAt(inner, r);
        TagCopied(inner, r, CommentAt);
      case Comment(text) =>
        CommentHit(text, r);
        ReplaceAllHit("<!--" + text + "-->", r, CommentAt, "");
      case Block(_, _, _, _, _) => CommentKeepsBlock(c, r, bare, r);
      case Alone(_) =>
        CommentSkips();
        HiddenCopied(c, r, bare, r, CommentAt);
      case Hidden(_, _, _) =>
        CommentSkips();
        HiddenCopied(c, r, bare, r, CommentAt);
    }
  }

  lemma {:induction false} TextAtCons(cs: seq<Chunk>, stage: nat, tail: string)
    requires cs != []
    ensures TextAt(cs, stage) + tail == ChunkAt(cs[0], stage) + (TextAt(cs[1..], stage) + tail)
  {
    hide ChunkAt;
  }

  lemma {:induction false} NoChunks(stage: nat, tail: string)
    ensures TextAt([], stage) + tail == tail && "" + tail == tail
  {
  }

  lemma {:induction false} PiecesCons(cs: seq<Chunk>, tail: string)
    requires cs != [] && ArePieces(cs, tail)
    ensures IsChunk(cs[0], TextAt(cs[1..], 0) + tail, TextAt(cs[1..], 1) + tail) && ArePieces(cs[1..], tail)
  {
    hide IsChunk, TextAt;
  }

  lemma {:induction false} CommentPass(cs: seq<Chunk>, tail: string)
    requires ArePieces(cs, tail)
    ensures ReplaceAll(TextAt(cs, 0) + tail, CommentAt) == TextAt(cs, 1) + ReplaceAll(tail, CommentAt)
  {
    hide *;
    if cs == [] {
      NoChunks(0, tail);
      NoChunks(1, ReplaceAll(tail, CommentAt));
    } else {
      PiecesCons(cs, tail);
      TextAtCons(cs, 0, tail);
      TextAtCons(cs, 1, ReplaceAll(tail, CommentAt));
      FirstStage(cs[0]);
      CommentChunk(cs[0], TextAt(cs[1..], 0) + tail, TextAt(cs[1..], 1) + tail);
      CommentPass(cs[1..], tail);
    }
  }

  lemma FirstStage(c: Chunk)
    ensures ChunkAt(c, 0) == ChunkText(c)
  {
    hide ChunkText;
  }

  // ---- The pass over elements without content

  lemma BlockMatcher()
    ensures Pages.MatchesTags(BlockAt) && Pages.MatchesTags(OpenBlockAt)
  {
    hide Run, IndexOf, AfterClose;
  }

  lemma NamePart(inner: string, r: string)
    ensures var s := Angled(inner) + r;
      |s| >= |inner| + 2 && s[|inner| + 2..] == r && s[1..] == inner + (">" + r)
  {
  }

  lemma BlockNameIs(inner: string, r: string)
    requires !IsClosing(inner)
    ensures var s := Angled(inner) + r; Fold(s[1..1 + Run(s[1..], IsWordChar)]) == Word(inner)
  {
    hide *;
    NamePart(inner, r);
    EndOfWord(r);
    RunWithin(inner, ">" + r, IsWordChar);
    NameSliced(Angled(inner) + r, inner, ">" + r, Run(inner, IsWordChar));
    OpenWord(inner);
  }

  lemma NameSliced(s: string, inner: string, x: string, n: nat)
    requires |s| > 0 && s[1..] == inner + x && n <= |inner|
    ensures 1 + n <= |s| && s[1..1 + n] == inner[..n]
  {
    assert s[1..1 + n] == s[1..][..n];
  }

  lemma EndOfWord(r: string)
    ensures (">" + r)[0] == '>' && !IsWordChar('>')
  {
  }

  lemma {:induction false} OpenWord(inner: string)
    requires !IsClosing(inner)
    ensures Word(inner) == Fold(inner[..Run(inner, IsWordChar)])
  {
    hide Run, Fold;
  }

  lemma {:induction false} BlockAtIs(inner: string, r: string)
    requires AllChars(inner, IsNoBracket)
    ensures BlockAt(Angled(inner) + r) ==
      if IsClosing(inner) || Word(inner) !in NO_CONTENT || AfterClose(r, Word(inner)).None? then None
      else Some(Hit(|inner| + 2 + AfterClose(r, Word(inner)).value, ""))
  {
    hide NamedTag, AllChars, Fold, Word, AfterClose, NON_CONTENT, NO_CONTENT, Run, IsClosing, Angled;
    ContentWords();
    NamedIs(inner, r, Without, NO_CONTENT);
    NamePart(inner, r);
    if !IsClosing(inner) {
      BlockNameIs(inner, r);
    }
  }

  lemma OpenBlockIs(inner: string, r: string)
    requires AllChars(inner, IsNoBracket)
    ensures OpenBlockAt(Angled(inner) + r) ==
      if IsClosing(inner) || Word(inner) !in {"style", "script"} then None else Some(Hit(|Angled(inner) + r|, ""))
  {
    hide NamedTag, AllChars, Word, IsClosing, Angled;
    NamedIs(inner, r, Without, {"style", "script"});
  }

  lemma BlockSkips()
    ensures forall inner | IsOrdinary(inner) :: Skips(BlockAt, inner)
  {
    hide *;
    forall inner | IsOrdinary(inner) ensures Skips(BlockAt, inner) {
      OrdinaryIs(inner);
      ContentWords();
      OneOfIff(inner, false, NO_CONTENT);
      forall x: string ensures BlockAt(Angled(inner) + x).None? {
        BlockAtIs(inner, x);
      }
      SkipsAll(BlockAt, inner);
    }
  }

  lemma RawIsNoContent(n: string)
    ensures n in {"style", "script"} ==> n in NO_CONTENT
    ensures n in NO_CONTENT ==> n in {"style", "script"} || n in {"head", "title"}
  {
  }

  lemma OpenBlockSkips()
    ensures forall inner | IsOrdinary(inner) :: Skips(OpenBlockAt, inner)
  {
    hide *;
    forall inner | IsOrdinary(inner) ensures Skips(OpenBlockAt, inner) {
      OrdinaryIs(inner);
      ContentWords();
      OneOfIff(inner, false, NO_CONTENT);
      RawIsNoContent(Word(inner));
      forall x: string ensures OpenBlockAt(Angled(inner) + x).None? {
        OpenBlockIs(inner, x);
      }
      SkipsAll(OpenBlockAt, inner);
    }
  }

  lemma TagNoBlock(inner: string, rest: string, bare: string)
    requires IsChunk(Chunk.Tag(inner), rest, bare)
    ensures BlockAt(Angled(inner) + bare).None? && forall x: string :: OpenBlockAt(Angled(inner) + x).None?
  {
    hide AllChars, IsShown, IsOneOf, Laws.HasCommentEnd, Laws.HasEnd, NO_CONTENT, BlockAt, OpenBlockAt, Word, IsClosing, IsTagOf,
      StartsWith, AreWords, IsWord, Angled;
    ContentWords();
    OneOfIff(inner, false, {"style", "script"});
    forall x: string ensures OpenBlockAt(Angled(inner) + x).None? {
      OpenBlockIs(inner, x);
    }
    BlockAtIs(inner, bare);
    RawIsNoContent(Word(inner));
    if Word(inner) in {"head", "title"} && !IsClosing(inner) {
      ContentWord(Word(inner));
      TagWord(inner, false, Word(inner));
      Laws.NoEnd(bare, Word(inner));
    }
  }

  lemma ContentWord(n: string)
    requires n in {"head", "title"}
    ensures IsWord(n)
  {
  }

  lemma NoBracketInName(n: string)
    requires n in NO_CONTENT
    ensures '<' !in n
  {
  }

  lemma {:induction false} BlockGone(c: Chunk, rest: string, bare: string, r: string)
    requires c.Block? && IsChunk(c, rest, bare)
    ensures ReplaceAll(ChunkText(c) + r, BlockAt) == ReplaceAll(r, BlockAt)
  {
    hide AllChars, IsSpace, NO_CONTENT, Laws.HasEnd, Laws.IsEnd, HasCommentStart, ReplaceAll, BlockAt, Fold, BlockText, AfterClose,
      StartsWith, IsClosing, Word, Angled, IsWordChar;
    var Block(name, attrs, content, end, blank) := c;
    BlockHead(name, attrs);
    NoBracketInName(Fold(name));
    Laws.EndTextIs(end, blank, Fold(name));
    EndTextIs(end, blank);
    Laws.FirstEnd(content, Angled("/" + end + blank), r, Fold(name));
    BlockIs(name, attrs, content, end, blank, r);
    BlockAtIs(name + attrs, content + (Angled("/" + end + blank) + r));
    BlockLength(name, attrs, content, end, blank);
    ReplaceAllHit(ChunkText(c), r, BlockAt, "");
    NothingLeft(r, ReplaceAll(r, BlockAt));
  }

  lemma EndTextIs(end: string, blank: string)
    ensures Laws.EndText(end, blank) == Angled("/" + end + blank)
  {
  }

  lemma BlockLength(name: string, attrs: string, content: string, end: string, blank: string)
    ensures |BlockText(name, attrs, content, end, blank)| == |name + attrs| + 2 + (|content| + |Angled("/" + end + blank)|)
    ensures BlockText(name, attrs, content, end, blank) != ""
  {
  }

  lemma {:induction false} BlockChunk(c: Chunk, rest: string, r: string)
    requires IsChunk(c, rest, r)
    ensures ReplaceAll(ChunkAt(c, 1) + r, BlockAt) == ChunkAt(c, 2) + ReplaceAll(r, BlockAt)
  {
    hide ReplaceAll, BlockAt, Pages.MatchesTags, IsStyled, Hides, StandsAlone, Fold, IsBalanced, IsTagOf, IsOrdinary, BlockText,
      InnerOf, AllChars, NO_CONTENT, Laws.HasEnd, Laws.HasCommentEnd, Angled, AreOrdinary, Skips, StartsWith, IsOneOf, IsShown, TextOf;
    BlockMatcher();
    NothingLeft(r, ReplaceAll(r, BlockAt));
    match c {
      case Letter(x) => Pages.CopyText([x], r, BlockAt);
      case Tag(inner) =>
        TagNoBlock(inner, rest, r);
        TagCopied(inner, r, BlockAt);
      case Comment(text) =>
      case Block(_, _, _, _, _) => BlockGone(c, rest, r, r);
      case Alone(_) =>
        BlockSkips();
        HiddenCopied(c, rest, r, r, BlockAt);
      case Hidden(_, _, _) =>
        BlockSkips();
        HiddenCopied(c, rest, r, r, BlockAt);
    }
  }

  lemma {:induction false} BlockPass(cs: seq<Chunk>, tail: string)
    requires ArePieces(cs, tail)
    ensures ReplaceAll(TextAt(cs, 1) + tail, BlockAt) == TextAt(cs, 2) + ReplaceAll(tail, BlockAt)
  {
    hide *;
    if cs == [] {
      NoChunks(1, tail);
      NoChunks(2, ReplaceAll(tail, BlockAt));
    } else {
      PiecesCons(cs, tail);
      TextAtCons(cs, 1, tail);
      TextAtCons(cs, 2, ReplaceAll(tail, BlockAt));
      BlockChunk(cs[0], TextAt(cs[1..], 0) + tail, TextAt(cs[1..], 1) + tail);
      BlockPass(cs[1..], tail);
    }
  }

  lemma {:induction false} OpenBlockChunk(c: Chunk, rest: string, bare: string, r: string)
    requires IsChunk(c, rest, bare)
    ensures ReplaceAll(ChunkAt(c, 2) + r, OpenBlockAt) == ChunkAt(c, 2) + ReplaceAll(r, OpenBlockAt)
  {
    hide ReplaceAll, OpenBlockAt, Pages.MatchesTags, IsStyled, Hides, StandsAlone, Fold, IsBalanced, IsTagOf, IsOrdinary, BlockText,
      InnerOf, AllChars, NO_CONTENT, Laws.HasEnd, Laws.HasCommentEnd, Angled, AreOrdinary, Skips, StartsWith, IsOneOf, IsShown, TextOf;
    BlockMatcher();
    NothingLeft(r, ReplaceAll(r, OpenBlockAt));
    match c {
      case Letter(x) => Pages.CopyText([x], r, OpenBlockAt);
      case Tag(inner) =>
        TagNoBlock(inner, rest, bare);
        TagCopied(inner, r, OpenBlockAt);
      case Comment(text) =>
      case Block(_, _, _, _, _) =>
      case Alone(_) =>
        OpenBlockSkips();
        HiddenCopied(c, rest, bare, r, OpenBlockAt);
      case Hidden(_, _, _) =>
        OpenBlockSkips();
        HiddenCopied(c, rest, bare, r, OpenBlockAt);
    }
  }

  lemma {:induction false} OpenBlockPass(cs: seq<Chunk>, tail: string, end: string)
    requires ArePieces(cs, tail)
    ensures ReplaceAll(TextAt(cs, 2) + end, OpenBlockAt) == TextAt(cs, 2) + ReplaceAll(end, OpenBlockAt)
  {
    hide *;
    if cs == [] {
      NoChunks(2, end);
      NoChunks(2, ReplaceAll(end, OpenBlockAt));
    } else {
      PiecesCons(cs, tail);
      TextAtCons(cs, 2, end);
      TextAtCons(cs, 2, ReplaceAll(end, OpenBlockAt));
      OpenBlockChunk(cs[0], TextAt(cs[1..], 0) + tail, TextAt(cs[1..], 1) + tail, TextAt(cs[1..], 2) + end);
      OpenBlockPass(cs[1..], tail, end);
    }
  }

  // ---- The pass over hidden elements

  lemma BareItems(items: seq<Item>)
    requires AreOrdinary(items)
    ensures AreBare(items)
  {
    hide AllChars, IsOneOf, StartsWith;
    forall i | 0 <= i < |items| ensures IsBare(items[i]) {
      if items[i].Element? {
        OrdinaryIs(items[i].inner);
      }
    }
  }

  lemma AngledText(inner: string, r: string)
    ensures Angled(inner) + r == "" + ("<" + inner + ">" + r)
  {
  }

  lemma NoHead(s: string)
    ensures '<' !in "" && "" + s == s
  {
  }

  lemma {:induction false} TagStays(inner: string, x: string)
    requires AllChars(inner, IsNoBracket) && IsShown(inner)
    ensures WithoutHidden(Angled(inner) + x) == Angled(inner) + WithoutHidden(x)
  {
    hide AllChars, WithoutHidden, HasStyleQuote, IsLetter, IsStyled, InnerOf, Hides, Angled;
    AngledText(inner, x);
    AngledText(inner, WithoutHidden(x));
    if !HasStyleQuote("<" + inner) || inner == "" || !IsLetter(inner[0]) {
      UnstyledStays("", inner, x);
    } else {
      var t: Styled :| IsStyled(t) && inner == InnerOf(t) && !Hides(t.style);
      OpeningText(t);
      NoHead(TextOf(t) + x);
      NoHead(TextOf(t) + WithoutHidden(x));
      ShownStays("", t, x);
    }
  }

  lemma {:induction false} AloneGoes(t: Styled, r: string)
    requires IsStyled(t) && Hides(t.style) && StandsAlone(t)
    ensures WithoutHidden(TextOf(t) + r) == WithoutHidden(r)
  {
    hide *;
    NoHead(TextOf(t) + r);
    NoHead(WithoutHidden(r));
    AloneGone("", t, r);
  }

  lemma {:induction false} HiddenText(t: Styled, inside: seq<Item>, closing: string, r: string)
    ensures TextOf(t) + (ItemsText(inside) + Angled(closing)) + r
         == "" + (TextOf(t) + (ItemsText(inside) + ("<" + closing + ">" + r)))
  {
    hide TextOf, ItemsText;
  }

  lemma {:induction false} HiddenGoes(t: Styled, inside: seq<Item>, closing: string, r: string)
    requires IsStyled(t) && Hides(t.style) && !StandsAlone(t)
    requires AreOrdinary(inside) && IsBalanced(inside, Fold(t.name))
    requires AllChars(closing, IsNoBracket) && IsTagOf(closing, true, Fold(t.name))
    ensures WithoutHidden(TextOf(t) + (ItemsText(inside) + Angled(closing)) + r) == WithoutHidden(r)
  {
    hide *;
    HiddenText(t, inside, closing, r);
    NoHead(WithoutHidden(r));
    BareItems(inside);
    ElementGone("", t, inside, closing, r);
  }

  lemma {:induction false} HiddenChunk(c: Chunk, rest: string, bare: string, r: string)
    requires IsChunk(c, rest, bare)
    ensures WithoutHidden(ChunkAt(c, 2) + r) == ChunkAt(c, 3) + WithoutHidden(r)
  {
    hide WithoutHidden, IsStyled, Hides, StandsAlone, Fold, IsBalanced, IsTagOf, IsOrdinary, BlockText,
      InnerOf, AllChars, NO_CONTENT, Laws.HasEnd, Laws.HasCommentEnd, Angled, AreOrdinary, StartsWith, IsOneOf, IsShown, TextOf, ItemsText;
    NothingLeft(r, WithoutHidden(r));
    match c {
      case Letter(x) => CopiedText([x], r);
      case Tag(inner) => TagStays(inner, r);
      case Comment(text) =>
      case Block(_, _, _, _, _) =>
      case Alone(t) => AloneGoes(t, r);
      case Hidden(t, inside, closing) => HiddenGoes(t, inside, closing, r);
    }
  }

  lemma {:induction false} HiddenPass(cs: seq<Chunk>, tail: string, end: string)
    requires ArePieces(cs, tail)
    ensures WithoutHidden(TextAt(cs, 2) + end) == TextAt(cs, 3) + WithoutHidden(end)
  {
    hide *;
    if cs == [] {
      NoChunks(2, end);
      NoChunks(3, WithoutHidden(end));
    } else {
      PiecesCons(cs, tail);
      TextAtCons(cs, 2, end);
      TextAtCons(cs, 3, WithoutHidden(end));
      HiddenChunk(cs[0], TextAt(cs[1..], 0) + tail, TextAt(cs[1..], 1) + tail, TextAt(cs[1..], 2) + end);
      HiddenPass(cs[1..], tail, end);
    }
  }

  // ---- Blanks in the source

  function Squeeze(inner: string): string {
    Squash(inner, IsSourceBlank, false)
  }

  /** What a tag has become after the first `n` passes over tags. */
  function Given(inner: string, n: nat): Option<string> {
    if n == 0 then None
    else if Given(inner, n - 1).Some? then Given(inner, n - 1)
    else if Takes(inner, n - 1) then Some(Gives(n - 1))
    else None
  }

  /** Whether pass `n` matches a tag, and what it makes of it. */
  predicate Takes(inner: string, n: nat) {
    match n
    case 0 => !IsClosing(inner) && Word(inner) in {"br"}
    case 1 => !IsClosing(inner) && Word(inner) in {"li"}
    case 2 => Word(inner) in PARAGRAPHS
    case 3 => Word(inner) in LINES
    case 4 => !IsClosing(inner) && Word(inner) in {"hr"}
    case 5 => IsCellEnd(inner)
    case _ => true
  }

  function Gives(n: nat): string {
    match n
    case 0 => "\n"
    case 1 => "\n\U{2022} "
    case 2 => "\n\n"
    case 3 => "\n"
    case 4 => "\n"
    case 5 => " "
    case _ => ""
  }

  function Step(n: nat): Matcher {
    match n
    case 0 => BrAt
    case 1 => ItemAt
    case 2 => ParagraphAt
    case 3 => LineTagAt
    case 4 => RuleAt
    case 5 => CellEndAt
    case _ => AnyTagAt
  }

  function TagAfter(inner: string, n: nat): string {
    match Given(inner, n)
    case None => Angled(inner)
    case Some(t) => t
  }

  /** What is left of the page after blanks are collapsed and the first `n` passes
      over tags. */
  function Passed(cs: seq<Chunk>, inRun: bool, n: nat): string {
    if cs == [] then ""
    else
      match cs[0]
      case Letter(c) =>
        if IsBlankChar(c) then (if inRun then "" else " ") + Passed(cs[1..], true, n) else [c] + Passed(cs[1..], false, n)
      case Tag(inner) => TagAfter(Squeeze(inner), n) + Passed(cs[1..], false, n)
      case Comment(_) => Passed(cs[1..], inRun, n)
      case Block(_, _, _, _, _) => Passed(cs[1..], inRun, n)
      case Alone(_) => Passed(cs[1..], inRun, n)
      case Hidden(_, _, _) => Passed(cs[1..], inRun, n)
  }

  lemma {:induction false} SquashLetter(c: char, r: string, inRun: bool)
    ensures Squash([c] + r, IsSourceBlank, inRun) ==
      if IsBlankChar(c) then (if inRun then "" else " ") + Squash(r, IsSourceBlank, true)
      else [c] + Squash(r, IsSourceBlank, false)
  {
    SquashCons(c, r, IsSourceBlank, inRun);
  }

  lemma {:induction false} SquashTag(inner: string, r: string, inRun: bool)
    ensures Squash(inner + (">" + r), IsSourceBlank, inRun)
         == Squash(inner, IsSourceBlank, inRun) + (">" + Squash(r, IsSourceBlank, false))
  {
    hide *;
    var x, y := ">" + r, ">" + Squash(r, IsSourceBlank, false);
    if inner == "" {
      SquashEnd(r, inRun);
      NoSquash(inRun);
      NoHead(x);
      NoHead(y);
    } else {
      var c, rest := inner[0], inner[1..];
      FirstOf(inner, x);
      SquashLetter(c, rest, inRun);
      SquashLetter(c, rest + x, inRun);
      SquashTag(rest, r, IsBlankChar(c));
      AfterFirst(c, inRun, Squash(rest, IsSourceBlank, IsBlankChar(c)), y);
    }
  }

  lemma {:induction false} SquashEnd(r: string, inRun: bool)
    ensures Squash(">" + r, IsSourceBlank, inRun) == ">" + Squash(r, IsSourceBlank, false)
  {
    hide Squash;
    assert ">" + r == ['>'] + r;
    SquashLetter('>', r, inRun);
  }

  lemma FirstOf(inner: string, x: string)
    requires inner != ""
    ensures inner == [inner[0]] + inner[1..] && inner + x == [inner[0]] + (inner[1..] + x)
  {
  }

  lemma AfterFirst(c: char, inRun: bool, z: string, y: string)
    ensures (if IsBlankChar(c) then (if inRun then "" else " ") + z else [c] + z) + y
         == if IsBlankChar(c) then (if inRun then "" else " ") + (z + y) else [c] + (z + y)
  {
    hide IsBlankChar;
  }

  lemma {:induction false} NoSquash(inRun: bool)
    ensures Squash("", IsSourceBlank, inRun) == ""
  {
  }

  lemma {:induction false} SquashAngled(inner: string, r: string, inRun: bool)
    ensures Squash(Angled(inner) + r, IsSourceBlank, inRun) == Angled(Squeeze(inner)) + Squash(r, IsSourceBlank, false)
  {
    hide Squash;
    assert Angled(inner) + r == ['<'] + (inner + (">" + r));
    SquashLetter('<', inner + (">" + r), inRun);
    SquashTag(inner, r, false);
    assert ['<'] + (Squeeze(inner) + (">" + Squash(r, IsSourceBlank, false)))
        == Angled(Squeeze(inner)) + Squash(r, IsSourceBlank, false);
  }

  /** What follows does not start with a blank. */
  predicate StartsFresh(tail: string) {
    tail == "" || tail[0] == '<'
  }

  lemma {:induction false} FreshTail(tail: string, inRun: bool)
    requires StartsFresh(tail)
    ensures Squash(tail, IsSourceBlank, inRun) == Squash(tail, IsSourceBlank, false)
  {
  }

  lemma {:induction false} PassedNothing(inRun: bool, n: nat)
    ensures Passed([], inRun, n) == ""
  {
  }

  /** A piece as it is after blanks are collapsed and `n` passes. */
  function PieceAfter(c: Chunk, inRun: bool, n: nat): string {
    match c
    case Letter(x) => if IsBlankChar(x) then if inRun then "" else " " else [x]
    case Tag(inner) => TagAfter(Squeeze(inner), n)
    case Comment(_) => ""
    case Block(_, _, _, _, _) => ""
    case Alone(_) => ""
    case Hidden(_, _, _) => ""
  }

  predicate RunAfter(c: Chunk, inRun: bool) {
    match c
    case Letter(x) => IsBlankChar(x)
    case Tag(_) => false
    case Comment(_) => inRun
    case Block(_, _, _, _, _) => inRun
    case Alone(_) => inRun
    case Hidden(_, _, _) => inRun
  }

  lemma {:induction false} PassedStep(cs: seq<Chunk>, inRun: bool, n: nat)
    requires cs != []
    ensures Passed(cs, inRun, n) == PieceAfter(cs[0], inRun, n) + Passed(cs[1..], RunAfter(cs[0], inRun), n)
  {
    NoHead(Passed(cs[1..], inRun, n));
    NoHead(Passed(cs[1..], true, n));
    hide TagAfter, Squeeze, IsBlankChar;
  }

  lemma {:induction false} PassedCons(cs: seq<Chunk>, inRun: bool, n: nat, tail: string)
    requires cs != []
    ensures Passed(cs, inRun, n) + tail == PieceAfter(cs[0], inRun, n) + (Passed(cs[1..], RunAfter(cs[0], inRun), n) + tail)
  {
    hide *;
    PassedStep(cs, inRun, n);
    Join3(PieceAfter(cs[0], inRun, n), Passed(cs[1..], RunAfter(cs[0], inRun), n), tail);
  }

  lemma {:induction false} SquashChunk(c: Chunk, rest: string, bare: string, inRun: bool, r: string)
    requires IsChunk(c, rest, bare)
    ensures Squash(ChunkAt(c, 3) + r, IsSourceBlank, inRun)
         == PieceAfter(c, inRun, 0) + Squash(r, IsSourceBlank, RunAfter(c, inRun))
  {
    hide IsStyled, Hides, StandsAlone, Fold, IsBalanced, IsTagOf, IsOrdinary, BlockText, Squash, IsBlankChar,
      InnerOf, AllChars, NO_CONTENT, Laws.HasEnd, Laws.HasCommentEnd, Angled, AreOrdinary, StartsWith, IsOneOf, IsShown, TextOf, ItemsText;
    NoHead(r);
    NoHead(Squash(r, IsSourceBlank, RunAfter(c, inRun)));
    match c {
      case Letter(x) => SquashLetter(x, r, inRun);
      case Tag(inner) => SquashAngled(inner, r, inRun);
      case Comment(text) =>
      case Block(_, _, _, _, _) =>
      case Alone(_) =>
      case Hidden(_, _, _) =>
    }
  }

  lemma {:induction false} SquashPass(cs: seq<Chunk>, tail: string, end: string, inRun: bool)
    requires ArePieces(cs, tail)
    requires StartsFresh(end)
    ensures Squash(TextAt(cs, 3) + end, IsSourceBlank, inRun) == Passed(cs, inRun, 0) + Squash(end, IsSourceBlank, false)
  {
    hide *;
    if cs == [] {
      NoChunks(3, end);
      PassedNothing(inRun, 0);
      NoHead(Squash(end, IsSourceBlank, false));
      FreshTail(end, inRun);
    } else {
      PiecesCons(cs, tail);
      TextAtCons(cs, 3, end);
      PassedCons(cs, inRun, 0, Squash(end, IsSourceBlank, false));
      SquashChunk(cs[0], TextAt(cs[1..], 0) + tail, TextAt(cs[1..], 1) + tail, inRun, TextAt(cs[1..], 3) + end);
      SquashPass(cs[1..], tail, end, RunAfter(cs[0], inRun));
    }
  }

  // ---- The passes over tags

  lemma CellFound(inner: string, name: string)
    requires |name| == 2
    ensures Laws.IsEnd(Angled(inner), name) <==>
      |inner| >= 3 && inner[0] == '/' && Fold(inner[1..3]) == name && AllChars(inner[3..], IsSpace)
  {
    hide Fold, AllChars;
    var t := Angled(inner);
    assert t[..2] == "</" <==> t[1] == '/';
    if |inner| >= 3 {
      assert t[2..4] == inner[1..3] && t[4..|t| - 1] == inner[3..];
    }
  }

  lemma NoBracketWithin(t: string, name: string, i: nat)
    requires Laws.IsEnd(t, name) && '>' !in name && i < |t| - 1
    ensures t[i] != '>'
  {
    var k := 2 + |name|;
    if i < 2 {
      assert t[..2][i] == t[i];
    } else if i < k {
      assert Fold(t[2..k])[i - 2] == FoldChar(t[i]) && Fold(t[2..k])[i - 2] in name;
    } else {
      assert t[i] == t[k..|t| - 1][i - k];
    }
  }

  lemma CellLength(inner: string, r: string, name: string)
    requires AllChars(inner, IsNoBracket) && '>' !in name && CloseAt(Angled(inner) + r, name).Some?
    ensures CloseAt(Angled(inner) + r, name) == Some(|inner| + 2) && Laws.IsEnd(Angled(inner), name)
  {
    hide CloseAt, Laws.IsEnd;
    var s, k := Angled(inner) + r, |inner| + 2;
    Laws.EndAt(s, name);
    var n := CloseAt(s, name).value;
    LastOfEnd(s[..n], name);
    assert s[..n][n - 1] == s[n - 1] && s[k - 1] == '>';
    assert forall i | 0 <= i < |inner| :: s[i + 1] == inner[i];
    assert n > k ==> s[..n][k - 1] == '>';
    if n > k {
      NoBracketWithin(s[..n], name, k - 1);
    }
    assert s[..k] == Angled(inner);
  }

  lemma LastOfEnd(t: string, name: string)
    requires Laws.IsEnd(t, name)
    ensures |t| > 1 && t[|t| - 1] == '>'
  {
  }

  lemma CellIs(inner: string, r: string, name: string)
    requires AllChars(inner, IsNoBracket) && |name| == 2 && '>' !in name
    ensures CloseAt(Angled(inner) + r, name) ==
      if |inner| >= 3 && inner[0] == '/' && Fold(inner[1..3]) == name && AllChars(inner[3..], IsSpace)
      then Some(|inner| + 2) else None
  {
    hide CloseAt, Laws.IsEnd, Angled, Fold, AllChars;
    CellFound(inner, name);
    if CloseAt(Angled(inner) + r, name).Some? {
      CellLength(inner, r, name);
    }
    if Laws.IsEnd(Angled(inner), name) {
      Laws.EndFound(Angled(inner), name, r);
    }
  }

  lemma CellEndIs(inner: string, r: string)
    requires AllChars(inner, IsNoBracket)
    ensures CellEndAt(Angled(inner) + r) == if IsCellEnd(inner) then Some(Hit(|inner| + 2, " ")) else None
  {
    hide CloseAt, Angled, Fold, AllChars;
    CellIs(inner, r, "td");
    CellIs(inner, r, "th");
  }

  lemma AnyTagIs(inner: string, r: string)
    requires AllChars(inner, IsNoBracket)
    ensures AnyTagAt(Angled(inner) + r) == Some(Hit(|inner| + 2, ""))
  {
    var s := Angled(inner) + r;
    var k := |inner| + 1;
    assert s[..k] == "<" + inner && s[k] == '>';
    IndexOfIs(s, '>', k);
    hide IndexOf;
  }

  /** Pass `n` makes of a tag what the table says. */
  lemma StepIs(inner: string, r: string, n: nat)
    requires AllChars(inner, IsNoBracket) && n < 7
    ensures Step(n)(Angled(inner) + r) == if Takes(inner, n) then Some(Hit(|inner| + 2, Gives(n))) else None
  {
    hide AllChars, Angled, NamedTag, CellEndAt, AnyTagAt, IsClosing, Word, IsCellEnd, LINES, PARAGRAPHS, LINE_TAGS, PARAGRAPH_TAGS;
    match n {
      case 0 => NamedIs(inner, r, Without, {"br"});
      case 1 => NamedIs(inner, r, Without, {"li"});
      case 2 =>
        ParagraphWords();
        NamedIs(inner, r, Optional, PARAGRAPHS);
      case 3 =>
        LineNames();
        NamedIs(inner, r, Optional, LINES);
      case 4 => NamedIs(inner, r, Without, {"hr"});
      case 5 => CellEndIs(inner, r);
      case 6 => AnyTagIs(inner, r);
    }
  }

  lemma StepMatcher(n: nat)
    ensures Pages.MatchesTags(Step(n))
  {
    hide Pages.MatchesTags, BrAt, ItemAt, ParagraphAt, LineTagAt, RuleAt, AnyTagAt, CellEndAt;
    Pages.TagMatchers();
    Pages.CellMatcher();
  }

  lemma {:induction false} GivenPlain(inner: string, n: nat)
    requires Given(inner, n).Some?
    ensures '<' !in Given(inner, n).value
  {
    if Given(inner, n - 1).Some? {
      GivenPlain(inner, n - 1);
    }
  }

  lemma GivenNext(inner: string, n: nat)
    ensures Given(inner, n + 1) ==
      if Given(inner, n).Some? then Given(inner, n) else if Takes(inner, n) then Some(Gives(n)) else None
  {
    hide Takes, Gives;
  }

  lemma {:induction false} TagStep(inner: string, n: nat, r: string)
    requires AllChars(inner, IsNoBracket) && n < 7
    ensures ReplaceAll(TagAfter(inner, n) + r, Step(n)) == TagAfter(inner, n + 1) + ReplaceAll(r, Step(n))
  {
    hide AllChars, Angled, Takes, Gives, Step, ReplaceAll, Pages.MatchesTags, Given;
    StepMatcher(n);
    GivenNext(inner, n);
    if Given(inner, n).Some? {
      GivenPlain(inner, n);
      Pages.CopyText(Given(inner, n).value, r, Step(n));
    } else {
      StepIs(inner, r, n);
      if Takes(inner, n) {
        ReplaceAllHit(Angled(inner), r, Step(n), Gives(n));
      } else {
        TagCopied(inner, r, Step(n));
      }
    }
  }

  lemma {:induction false} SquashFree(s: string, inRun: bool)
    requires AllChars(s, IsNoBracket)
    ensures AllChars(Squash(s, IsSourceBlank, inRun), IsNoBracket)
  {
    hide AllChars, IsNoBracket;
    if s != "" {
      FreeTail(s);
      SquashFree(s[1..], IsSourceBlank(s[0]));
      FreeJoin(" ", Squash(s[1..], IsSourceBlank, true));
      FreeJoin([s[0]], Squash(s[1..], IsSourceBlank, false));
      NoHead(Squash(s[1..], IsSourceBlank, true));
    }
  }

  lemma FreeTail(s: string)
    requires AllChars(s, IsNoBracket) && s != ""
    ensures AllChars(s[1..], IsNoBracket) && AllChars([s[0]], IsNoBracket) && AllChars(" ", IsNoBracket)
  {
  }

  lemma FreeJoin(a: string, b: string)
    ensures AllChars(a, IsNoBracket) && AllChars(b, IsNoBracket) ==> AllChars(a + b, IsNoBracket)
  {
  }

  lemma {:induction false} ChunkStep(c: Chunk, rest: string, bare: string, inRun: bool, n: nat, r: string)
    requires IsChunk(c, rest, bare) && n < 7
    ensures ReplaceAll(PieceAfter(c, inRun, n) + r, Step(n)) == PieceAfter(c, inRun, n + 1) + ReplaceAll(r, Step(n))
  {
    hide IsStyled, Hides, StandsAlone, Fold, IsBalanced, IsTagOf, IsOrdinary, BlockText, Squash, IsBlankChar,
      InnerOf, AllChars, NO_CONTENT, Laws.HasEnd, Laws.HasCommentEnd, Angled, AreOrdinary, StartsWith, IsOneOf, IsShown, TextOf, ItemsText,
      ReplaceAll, Step, TagAfter, Pages.MatchesTags;
    NoHead(r);
    NoHead(ReplaceAll(r, Step(n)));
    StepMatcher(n);
    match c {
      case Letter(x) =>
        if !IsBlankChar(x) {
          Pages.CopyText([x], r, Step(n));
        } else if !inRun {
          Pages.CopyText(" ", r, Step(n));
        }
      case Tag(inner) =>
        SquashFree(inner, false);
        TagStep(Squeeze(inner), n, r);
      case Comment(text) =>
      case Block(_, _, _, _, _) =>
      case Alone(_) =>
      case Hidden(_, _, _) =>
    }
  }

  lemma {:induction false} StepPass(cs: seq<Chunk>, tail: string, end: string, inRun: bool, n: nat)
    requires ArePieces(cs, tail) && n < 7
    ensures ReplaceAll(Passed(cs, inRun, n) + end, Step(n)) == Passed(cs, inRun, n + 1) + ReplaceAll(end, Step(n))
  {
    hide *;
    var y := ReplaceAll(end, Step(n));
    if cs == [] {
      PassedNothing(inRun, n);
      PassedNothing(inRun, n + 1);
      NoHead(end);
      NoHead(y);
    } else {
      var more := RunAfter(cs[0], inRun);
      PiecesCons(cs, tail);
      PassedCons(cs, inRun, n, end);
      PassedCons(cs, inRun, n + 1, y);
      ChunkStep(cs[0], TextAt(cs[1..], 0) + tail, TextAt(cs[1..], 1) + tail, inRun, n, Passed(cs[1..], more, n) + end);
      StepPass(cs[1..], tail, end, more, n);
    }
  }

  // ---- The table

  lemma {:induction false} SqueezedWord(s: string)
    ensures var t, k := Squeeze(s), Run(s, IsWordChar); Run(t, IsWordChar) == k && t[..k] == s[..k]
  {
    hide Run, Squash, IsWordChar, IsSourceBlank;
    if s == "" {
      NoSquash(false);
    } else {
      var c, r := s[0], s[1..];
      assert s == [c] + r;
      SquashLetter(c, r, false);
      RunHead(s);
      RunHead(Squeeze(s));
      if IsWordChar(c) {
        WordNotBlank(c);
        SqueezedWord(r);
        var t := Squeeze(r);
        assert ([c] + t)[1..] == t;
        var k := Run(r, IsWordChar);
        assert ([c] + t)[..k + 1] == [c] + t[..k] && s[..k + 1] == [c] + r[..k];
      } else {
        BlankNoWord();
      }
    }
  }

  lemma {:induction false} RunHead(s: string)
    ensures s == "" ==> Run(s, IsWordChar) == 0
    ensures s != "" ==> Run(s, IsWordChar) == if IsWordChar(s[0]) then Run(s[1..], IsWordChar) + 1 else 0
  {
  }

  lemma WordNotBlank(c: char)
    requires IsWordChar(c)
    ensures !IsBlankChar(c)
  {
  }

  lemma BlankNoWord()
    ensures !IsWordChar(' ')
  {
  }

  lemma SlashSqueezed(r: string)
    ensures Squeeze("/" + r) == "/" + Squeeze(r)
  {
    hide Squash;
    assert "/" + r == ['/'] + r;
    SquashLetter('/', r, false);
  }

  lemma NotClosingSqueezed(inner: string)
    requires !IsClosing(inner)
    ensures !IsClosing(Squeeze(inner))
  {
    hide Squash;
    if inner == "" {
      NoSquash(false);
    } else {
      assert inner == [inner[0]] + inner[1..];
      SquashLetter(inner[0], inner[1..], false);
    }
  }

  /** Collapsed blanks change neither a tag's name nor what it stands for. */
  lemma SqueezedTag(inner: string)
    ensures IsClosing(Squeeze(inner)) == IsClosing(inner) && Word(Squeeze(inner)) == Word(inner)
    ensures IsClosing(inner) ==> Squeeze(inner) == "/" + Squeeze(inner[1..])
  {
    hide Run, Squash, Fold;
    if IsClosing(inner) {
      var r := inner[1..];
      assert inner == "/" + r;
      SlashSqueezed(r);
      assert ("/" + Squeeze(r))[1..] == Squeeze(r);
      SqueezedWord(r);
    } else {
      NotClosingSqueezed(inner);
      SqueezedWord(inner);
    }
  }

  // ---- Cells

  lemma CellWord(inner: string)
    ensures IsCellEnd(inner) <==>
      IsClosing(inner) && Word(inner) in {"td", "th"} && |inner| >= 3 && AllChars(inner[1..][2..], IsSpace)
  {
    if IsClosing(inner) && |inner| >= 3 && AllChars(inner[3..], IsSpace) {
      var rest := inner[1..];
      assert rest[2..] == inner[3..] && rest[..2] == inner[1..3];
      assert IsWord("td") && IsWord("th");
      TwoLetters(rest, "td");
      TwoLetters(rest, "th");
      hide Fold, Run, AllChars, IsWord;
    } else if |inner| >= 3 {
      assert inner[1..][2..] == inner[3..];
    }
  }

  /** Two letters and then none make a name of two letters. */
  lemma {:induction false} TwoLetters(rest: string, name: string)
    requires |rest| >= 2 && AllChars(rest[2..], IsSpace) && |name| == 2 && IsWord(name)
    ensures Fold(rest[..Run(rest, IsWordChar)]) == name <==> Fold(rest[..2]) == name
  {
    hide Run, Fold;
    FoldedRun(rest, name);
    assert |rest| > 2 ==> rest[2..][0] == rest[2];
  }

  lemma {:induction false} SpaceSqueezed(z: string, inRun: bool)
    ensures AllChars(Squash(z, IsSourceBlank, inRun), IsSpace) <==> AllChars(z, IsSpace)
  {
    hide AllChars, IsSpace, IsSourceBlank, Squash;
    if z == "" {
      NoSquash(inRun);
    } else {
      var c, r := z[0], z[1..];
      assert z == [c] + r;
      SquashLetter(c, r, inRun);
      SpaceSqueezed(r, IsBlankChar(c));
      SpaceHead(c, r);
      BlankIsSpace(c);
      if IsBlankChar(c) && inRun {
        NoHead(Squash(r, IsSourceBlank, true));
      } else {
        SpaceHead(if IsBlankChar(c) then ' ' else c, Squash(r, IsSourceBlank, IsBlankChar(c)));
      }
    }
  }

  lemma SpaceHead(c: char, r: string)
    ensures AllChars([c] + r, IsSpace) <==> IsSpace(c) && AllChars(r, IsSpace)
  {
    var s := [c] + r;
    assert forall i | 0 <= i < |r| :: s[i + 1] == r[i];
    assert s[0] == c;
  }

  lemma BlankIsSpace(c: char)
    ensures (IsBlankChar(c) ==> IsSpace(c)) && IsSpace(' ')
  {
  }

  lemma {:induction false} CellTail(rest: string)
    requires Run(rest, IsWordChar) == 2
    ensures |Squeeze(rest)| >= 2 && Squeeze(rest)[2..] == Squash(rest[2..], IsSourceBlank, false)
  {
    hide Run, Squash;
    var w := rest[..2];
    assert rest == w + rest[2..];
    SquashPlain(w, rest[2..], IsSourceBlank, false);
  }

  lemma WordLengthIs(inner: string)
    requires IsClosing(inner)
    ensures |Word(inner)| == Run(inner[1..], IsWordChar)
  {
  }

  lemma CellSqueezed(inner: string)
    ensures IsCellEnd(Squeeze(inner)) == IsCellEnd(inner)
  {
    hide *;
    CellWord(inner);
    CellWord(Squeeze(inner));
    SqueezedTag(inner);
    if IsClosing(inner) && Word(inner) in {"td", "th"} {
      ClosingIs(inner);
      WordLengthIs(inner);
      var rest := inner[1..];
      CellTail(rest);
      SpaceSqueezed(rest[2..], false);
      SlashTail(Squeeze(rest));
    }
  }

  lemma SlashTail(s: string)
    ensures ("/" + s)[1..] == s
  {
  }

  lemma ClosingIs(inner: string)
    requires IsClosing(inner)
    ensures inner != ""
  {
  }

  // ---- The quoted text

  lemma NoWordTwice(w: string)
    ensures w in PARAGRAPHS ==> w !in LINES && w !in {"br"} && w !in {"li"} && w !in {"hr"} && w !in {"td", "th"}
    ensures w in LINES ==> w !in {"br"} && w !in {"li"} && w !in {"hr"} && w !in {"td", "th"}
    ensures w in {"br", "hr"} <==> w in {"br"} || w in {"hr"}
    ensures w in {"br", "hr"} ==> w !in {"li"} && w !in {"td", "th"}
    ensures w in {"li"} ==> w !in {"td", "th"}
  {
  }

  /** The table in terms of a tag's name. */
  lemma EntryIs(inner: string)
    ensures Entry(inner) ==
      if (!IsClosing(inner) && Word(inner) in {"br", "hr"}) || Word(inner) in LINES then "\n"
      else if !IsClosing(inner) && Word(inner) in {"li"} then "\n\U{2022} "
      else if Word(inner) in PARAGRAPHS then "\n\n"
      else if IsCellEnd(inner) then " "
      else ""
  {
    hide IsOneOf, Word, IsClosing, IsCellEnd, LINES, PARAGRAPHS, AreWords;
    BreakWords();
    LineWords();
    ParagraphWords();
    OneOfIff(inner, false, {"br", "hr"});
    OneOfIff(inner, false, LINES);
    OneOfIff(inner, true, LINES);
    OneOfIff(inner, false, {"li"});
    OneOfIff(inner, false, PARAGRAPHS);
    OneOfIff(inner, true, PARAGRAPHS);
  }

  lemma {:induction false} FirstTaken(u: string)
    ensures Given(u, 7) == Some(
      if Takes(u, 0) then Gives(0) else if Takes(u, 1) then Gives(1) else if Takes(u, 2) then Gives(2)
      else if Takes(u, 3) then Gives(3) else if Takes(u, 4) then Gives(4) else if Takes(u, 5) then Gives(5) else Gives(6))
  {
    hide Gives, Given;
    assert Given(u, 0) == None by { NothingGiven(u); }
    GivenNext(u, 0);
    GivenNext(u, 1);
    GivenNext(u, 2);
    GivenNext(u, 3);
    GivenNext(u, 4);
    GivenNext(u, 5);
    GivenNext(u, 6);
  }

  lemma {:induction false} NothingGiven(u: string)
    ensures Given(u, 0) == None
  {
  }

  lemma CellName(inner: string)
    ensures IsCellEnd(inner) ==> Word(inner) in {"td", "th"}
  {
    CellWord(inner);
    hide Word, IsCellEnd;
  }

  /** After all passes a tag is its entry. */
  lemma TagIsEntry(inner: string)
    ensures TagAfter(Squeeze(inner), 7) == Entry(inner)
  {
    hide Given, Squeeze, Word, IsClosing, IsCellEnd, LINES, PARAGRAPHS, Entry;
    FirstTaken(Squeeze(inner));
    SqueezedTag(inner);
    CellSqueezed(inner);
    CellName(inner);
    NoWordTwice(Word(inner));
    EntryIs(inner);
  }

  lemma {:induction false} PassedIsQuoted(cs: seq<Chunk>, inRun: bool)
    ensures Passed(cs, inRun, 7) == Quoted(cs, inRun)
  {
    if cs != [] {
      hide TagAfter, Squeeze, Entry, IsBlankChar;
      if cs[0].Tag? {
        TagIsEntry(cs[0].inner);
      }
      PassedIsQuoted(cs[1..], false);
      PassedIsQuoted(cs[1..], true);
    }
  }

  lemma {:induction false} NoTagLeft(cs: seq<Chunk>, tail: string, inRun: bool)
    requires ArePieces(cs, tail)
    ensures '<' !in Passed(cs, inRun, 7)
  {
    hide *;
    if cs == [] {
      PassedNothing(inRun, 7);
      NoHead("");
    } else {
      var more := RunAfter(cs[0], inRun);
      PiecesCons(cs, tail);
      NoTagLeft(cs[1..], tail, more);
      PassedCons(cs, inRun, 7, "");
      NoTagPiece(cs[0], TextAt(cs[1..], 0) + tail, TextAt(cs[1..], 1) + tail, inRun);
      Plainly(Passed(cs, inRun, 7));
      Plainly(Passed(cs[1..], more, 7));
      PlainJoin(PieceAfter(cs[0], inRun, 7), Passed(cs[1..], more, 7));
    }
  }

  lemma Plainly(s: string)
    ensures s + "" == s
  {
  }

  lemma PlainJoin(a: string, b: string)
    requires '<' !in a && '<' !in b
    ensures '<' !in a + b
  {
  }

  lemma NoTagPiece(c: Chunk, rest: string, bare: string, inRun: bool)
    requires IsChunk(c, rest, bare)
    ensures '<' !in PieceAfter(c, inRun, 7)
  {
    hide IsStyled, Hides, StandsAlone, Fold, IsBalanced, IsTagOf, IsOrdinary, BlockText, Squash, IsBlankChar,
      InnerOf, AllChars, NO_CONTENT, Laws.HasEnd, Laws.HasCommentEnd, Angled, AreOrdinary, StartsWith, IsOneOf, IsShown, TextOf, ItemsText,
      Given;
    if c.Tag? {
      FirstTaken(Squeeze(c.inner));
      GivenPlain(Squeeze(c.inner), 7);
    }
  }

  // ---- What is cut off at the end

  /** A tag that is cut off, or nothing. */
  predicate IsCut(tail: string) {
    (tail == "" || tail[0] == '<') && '>' !in tail
  }

  lemma NamedNeedsEnd(s: string, slash: Slash, names: set<string>)
    requires '>' !in s
    ensures NamedTag(s, slash, names).None?
  {
    hide Run, Fold;
    if s != "" {
      var p := if |s| > 1 && s[1] == '/' then 2 else 1;
      var k := p + Run(s[p..], IsWordChar);
      assert IndexOf(s[k..], '>').None?;
    }
  }

  lemma StyleNeedsEnd(s: string)
    requires '>' !in s
    ensures StyleAt(s).None?
  {
    hide StyleQuote;
  }

  lemma {:induction false} LastStyleNeedsEnd(s: string, k: nat, q: nat)
    requires '>' !in s && 0 < k && k + q <= |s|
    ensures LastStyle(s, k, q).None?
  {
    hide StyleAt, IsWordChar, LastStyle;
    LastStyleStep(s, k, q);
    StyleNeedsEnd(s[k + q..]);
    if q > 0 {
      LastStyleNeedsEnd(s, k, q - 1);
    }
  }

  lemma OpenerNeedsEnd(s: string)
    requires '>' !in s
    ensures OpenerAt(s).None?
  {
    hide Run, LastStyle, IsAlnum, Fold, IsLetter;
    if |s| >= 2 {
      var k := 1 + Run(s[1..], IsAlnum);
      OpenerIs(s, k);
      LastStyleNeedsEnd(s, k, Run(s[k..], IsNotTagEnd));
    }
  }

  lemma {:induction false} CutStays(s: string)
    requires '>' !in s
    ensures WithoutHidden(s) == s
  {
    hide OpenerAt, WithoutHidden;
    WithoutHiddenStep(s);
    if s != "" {
      OpenerNeedsEnd(s);
      CutStays(s[1..]);
      assert s[..1] == [s[0]] && [s[0]] + s[1..] == s;
    }
  }

  lemma CommentNeedsEnd(s: string)
    requires '>' !in s
    ensures CommentAt(s).None?
  {
    hide Find;
    if |s| >= 4 {
      NoCommentEndIn(s[4..]);
      Laws.NoComment(s[4..]);
    }
  }

  lemma NoCommentEndIn(w: string)
    requires '>' !in w
    ensures !Laws.HasCommentEnd(w)
  {
    forall i | 0 <= i <= |w| ensures !StartsWith(w[i..], "-->") {
      if |w| - i >= 3 {
        StartsDifferently(w[i..], "-->", 2);
      }
    }
  }

  /** An expression that matches nothing without `>`. */
  ghost predicate NeedsEnd(m: Matcher) {
    forall x: string | '>' !in x :: m(x).None?
  }

  lemma {:induction false} CutCopied(s: string, m: Matcher)
    requires '>' !in s && NeedsEnd(m)
    ensures ReplaceAll(s, m) == s
  {
    hide ReplaceAll;
    if s == "" {
      assert ReplaceAll("", m) == "" by { NothingReplaced(m); }
    } else {
      Pages.ReplaceAllStep(s, m);
      CutCopied(s[1..], m);
    }
  }

  lemma NothingReplaced(m: Matcher)
    ensures ReplaceAll("", m) == ""
  {
  }

  lemma RemovalsNeedEnd()
    ensures NeedsEnd(CommentAt) && NeedsEnd(BlockAt) && NeedsEnd(OpenBlockAt)
  {
    hide CommentAt, NamedTag, AfterClose;
    forall x: string | '>' !in x ensures CommentAt(x).None? && BlockAt(x).None? && OpenBlockAt(x).None? {
      CommentNeedsEnd(x);
      NamedNeedsEnd(x, Without, NON_CONTENT);
      NamedNeedsEnd(x, Without, {"style", "script"});
    }
  }

  lemma StepsNeedEnd(n: nat)
    requires n < 7
    ensures NeedsEnd(Step(n))
  {
    hide NamedTag, CellEndAt, AnyTagAt, LINE_TAGS, PARAGRAPH_TAGS;
    forall x: string | '>' !in x ensures Step(n)(x).None? {
      match n {
        case 0 => NamedNeedsEnd(x, Without, {"br"});
        case 1 => NamedNeedsEnd(x, Without, {"li"});
        case 2 => NamedNeedsEnd(x, Optional, PARAGRAPH_TAGS);
        case 3 => NamedNeedsEnd(x, Optional, LINE_TAGS);
        case 4 => NamedNeedsEnd(x, Without, {"hr"});
        case 5 => CellNeedsEnd(x);
        case 6 => AnyTagNeedsEnd(x);
      }
    }
  }

  lemma CellNeedsEnd(s: string)
    requires '>' !in s
    ensures CellEndAt(s).None?
  {
    hide Run, StartsWithFold;
  }

  lemma AnyTagNeedsEnd(s: string)
    requires '>' !in s
    ensures AnyTagAt(s).None?
  {
  }

  lemma {:induction false} SquashNoEnd(s: string, inRun: bool)
    requires '>' !in s
    ensures '>' !in Squash(s, IsSourceBlank, inRun)
  {
    if s != "" {
      SquashNoEnd(s[1..], IsSourceBlank(s[0]));
    }
  }

  lemma {:induction false} CutSquashed(tail: string)
    requires IsCut(tail)
    ensures IsCut(Squash(tail, IsSourceBlank, false))
  {
    SquashNoEnd(tail, false);
    if tail != "" {
      assert tail == [tail[0]] + tail[1..];
      hide Squash;
      SquashLetter(tail[0], tail[1..], false);
    } else {
      NoSquash(false);
    }
  }

  lemma {:induction false} CutTagGoes(text: string, tail: string)
    requires '<' !in text && IsCut(tail)
    ensures ReplaceAll(text + tail, CutTagAt) == text
  {
    hide ReplaceAll, Pages.MatchesTags;
    Pages.TagMatchers();
    Pages.CopyText(text, tail, CutTagAt);
    NothingReplaced(CutTagAt);
    Plainly(text);
    Plainly(tail);
    if tail != "" {
      ReplaceAllHit(tail, "", CutTagAt, "");
    }
  }

  // ---- Main results

  predicate IsMark(c: Chunk) {
    match c
    case Letter(_) => false
    case Tag(inner) =>
      (inner != "" && IsLetter(inner[0])) || (|inner| > 1 && inner[0] == '/' && IsLetter(inner[1]))
    case Comment(_) => true
    case Block(_, _, _, _, _) => true
    case Alone(_) => true
    case Hidden(_, _, _) => true
  }

  /** Something on the page makes it HTML. */
  predicate HasMark(cs: seq<Chunk>) {
    exists i | 0 <= i < |cs| :: IsMark(cs[i])
  }

  /** `<` and a letter, perhaps with a slash between, at `i`, with a `>` at `j`. */
  predicate IsTagLike(s: string, i: nat, j: nat) {
    && j < |s| && s[j] == '>' && i + 1 < j && s[i] == '<'
    && (IsLetter(s[i + 1]) || (s[i + 1] == '/' && i + 2 < j && IsLetter(s[i + 2])))
  }

  predicate LooksLikeHtml(s: string) {
    HasCommentStart(s) || exists i, j | 0 <= i <= |s| && 0 <= j <= |s| :: IsTagLike(s, i, j)
  }

  lemma TagLikeIs(s: string, i: nat)
    requires i <= |s|
    ensures TagLikeAt(s[i..]) <==> exists j | 0 <= j <= |s| :: IsTagLike(s, i, j)
  {
    hide IsLetter;
    var t := s[i..];
    if TagLikeAt(t) {
      var p := if t[1] == '/' then 2 else 1;
      var k :| 0 <= k < |t[p + 1..]| && t[p + 1..][k] == '>';
      assert IsTagLike(s, i, i + p + 1 + k);
    }
    if j :| 0 <= j <= |s| && IsTagLike(s, i, j) {
      var p := if t[1] == '/' then 2 else 1;
      SlashIsNoLetter();
      assert t[p + 1..][j - i - p - 1] == '>';
    }
  }

  lemma SlashIsNoLetter()
    ensures !IsLetter('/')
  {
  }

  lemma HtmlIff(s: string)
    ensures HasTagOrComment(s) <==> LooksLikeHtml(s)
  {
    hide TagLikeAt, IsTagLike, StartsWith;
    if HasTag(s) {
      var i :| 0 <= i <= |s| && TagLikeAt(s[i..]);
      TagLikeIs(s, i);
    }
    if i, j :| 0 <= i <= |s| && 0 <= j <= |s| && IsTagLike(s, i, j) {
      TagLikeIs(s, i);
    }
  }

  lemma {:induction false} NoReturns(s: string)
    requires '\r' !in s
    ensures ReplaceAll(s, LineEndAt) == s
  {
    forall i | 0 <= i < |s| ensures LineEndAt(s[i..] + "").None? {
      StartsDifferently(s[i..] + "", "\r\n", 0);
      StartsDifferently(s[i..] + "", "\r", 0);
    }
    hide LineEndAt;
    ReplaceAllCopies(s, "", LineEndAt);
    NothingReplaced(LineEndAt);
    Plainly(s);
  }

  lemma NothingIsTidy()
    ensures TidyLines(DecodeEntities("")) == ""
  {
    assert DecodeEntities("") == "";
    Pages.NothingTidied();
  }

  /** Text that does not look like HTML is only decoded and tidied. */
  lemma TextQuoted(s: string)
    requires '\r' !in s && !LooksLikeHtml(s)
    ensures HtmlToQuotedText(s) == TidyLines(DecodeEntities(s))
  {
    hide TidyLines, DecodeEntities, HasTagOrComment, LooksLikeHtml, ReplaceAll;
    NothingIsTidy();
    HtmlIff(s);
    NoReturns(s);
  }

  lemma HtmlAfter(a: string, b: string)
    requires LooksLikeHtml(b)
    ensures LooksLikeHtml(a + b)
  {
    hide IsLetter, StartsWith;
    var s := a + b;
    if i :| 0 <= i <= |b| && StartsWith(b[i..], "<!--") {
      assert s[|a| + i..] == b[i..];
    } else {
      var i, j :| 0 <= i <= |b| && 0 <= j <= |b| && IsTagLike(b, i, j);
      assert IsTagLike(s, |a| + i, |a| + j);
    }
  }

  lemma MarkedTag(inner: string, r: string)
    requires (inner != "" && IsLetter(inner[0])) || (|inner| > 1 && inner[0] == '/' && IsLetter(inner[1]))
    ensures LooksLikeHtml(Angled(inner) + r)
  {
    hide IsLetter;
    assert IsTagLike(Angled(inner) + r, 0, |inner| + 1);
  }

  lemma NameStarts(name: string, r: string)
    requires IsPlainName(name)
    ensures name + r != "" && IsLetter((name + r)[0])
  {
  }

  lemma CommentLooks(s: string)
    requires StartsWith(s, "<!--")
    ensures LooksLikeHtml(s)
  {
    hide StartsWith, IsTagLike;
    assert s[0..] == s;
  }

  lemma CommentBegins(text: string, r: string)
    ensures StartsWith("<!--" + text + "-->" + r, "<!--")
  {
    assert ("<!--" + text + "-->" + r)[..4] == "<!--";
  }

  lemma MarkLooks(c: Chunk, rest: string, bare: string, r: string)
    requires IsChunk(c, rest, bare) && IsMark(c)
    ensures LooksLikeHtml(ChunkText(c) + r)
  {
    hide LooksLikeHtml, IsLetter, IsStyled, Hides, StandsAlone, Fold, IsBalanced, IsTagOf, IsOrdinary, BlockText, TextOf, InnerOf,
      ItemsText, AllChars, NO_CONTENT, Laws.HasEnd, Laws.HasCommentEnd, HasCommentStart, Angled, AreOrdinary, StartsWith, IsOneOf, IsShown,
      StylePart, IsPlainName;
    match c {
      case Letter(_) =>
      case Tag(inner) => MarkedTag(inner, r);
      case Comment(text) =>
        CommentBegins(text, r);
        CommentLooks("<!--" + text + "-->" + r);
      case Block(name, attrs, content, end, blank) =>
        BlockIs(name, attrs, content, end, blank, r);
        NameIsPlain(name);
        NameStarts(name, attrs);
        MarkedTag(name + attrs, content + (Angled("/" + end + blank) + r));
      case Alone(t) =>
        OpeningText(t);
        OpeningStarts(t);
        MarkedTag(InnerOf(t), r);
      case Hidden(t, inside, closing) =>
        OpeningText(t);
        OpeningStarts(t);
        Join3(TextOf(t), ItemsText(inside) + Angled(closing), r);
        MarkedTag(InnerOf(t), ItemsText(inside) + Angled(closing) + r);
    }
  }

  lemma OpeningStarts(t: Styled)
    requires IsStyled(t)
    ensures InnerOf(t) != "" && IsLetter(InnerOf(t)[0])
  {
    hide *;
    StyledIs(t);
    InnerIs(t);
    NameStarts(t.name, t.before + StylePart(t));
  }

  lemma MarkCons(cs: seq<Chunk>)
    requires HasMark(cs)
    ensures cs != [] && (IsMark(cs[0]) || HasMark(cs[1..]))
  {
    hide IsMark;
    var i :| 0 <= i < |cs| && IsMark(cs[i]);
    if i > 0 {
      assert cs[1..][i - 1] == cs[i];
    }
  }

  lemma {:induction false} PageLooks(cs: seq<Chunk>, tail: string)
    requires ArePieces(cs, tail) && HasMark(cs)
    ensures LooksLikeHtml(Html(cs) + tail)
  {
    hide *;
    MarkCons(cs);
    PiecesCons(cs, tail);
    TextAtCons(cs, 0, tail);
    FirstStage(cs[0]);
    HtmlIsText(cs);
    HtmlIsText(cs[1..]);
    if IsMark(cs[0]) {
      MarkLooks(cs[0], TextAt(cs[1..], 0) + tail, TextAt(cs[1..], 1) + tail, TextAt(cs[1..], 0) + tail);
    } else {
      PageLooks(cs[1..], tail);
      HtmlAfter(ChunkText(cs[0]), TextAt(cs[1..], 0) + tail);
    }
  }

  lemma {:induction false} HtmlIsText(cs: seq<Chunk>)
    ensures Html(cs) == TextAt(cs, 0)
  {
    hide TextAt;
  }

  lemma {:induction false} RemovedIs(html: string, a: string, b: string, c: string)
    requires ReplaceAll(html, CommentAt) == a && ReplaceAll(a, BlockAt) == b && ReplaceAll(b, OpenBlockAt) == c
    ensures DropNonContent(html) == c
  {
    hide ReplaceAll;
  }

  /** What ends the page once comments and elements without content are gone. */
  lemma {:induction false} ContentLeft(cs: seq<Chunk>, tail: string, end: string)
    requires ArePieces(cs, tail) && ReplaceAll(tail, CommentAt) == tail
    requires ReplaceAll(ReplaceAll(tail, BlockAt), OpenBlockAt) == end
    ensures DropNonContent(Html(cs) + tail) == TextAt(cs, 2) + end
  {
    hide *;
    HtmlIsText(cs);
    CommentPass(cs, tail);
    BlockPass(cs, tail);
    OpenBlockPass(cs, tail, ReplaceAll(tail, BlockAt));
    RemovedIs(Html(cs) + tail, TextAt(cs, 1) + tail, TextAt(cs, 2) + ReplaceAll(tail, BlockAt), TextAt(cs, 2) + end);
  }

  lemma BlanksLeft(cs: seq<Chunk>, tail: string, end: string) returns (cut: string)
    requires ArePieces(cs, tail) && IsCut(end)
    ensures IsCut(cut) && ReplaceAll(WithoutHidden(TextAt(cs, 2) + end), SourceBlankAt) == Passed(cs, false, 0) + cut
  {
    hide *;
    cut := Squash(end, IsSourceBlank, false);
    CutIs(end);
    HiddenPass(cs, tail, end);
    CutStays(end);
    SourceBlanks(TextAt(cs, 3) + end);
    SquashPass(cs, tail, end, false);
    CutSquashed(end);
  }

  lemma CutIs(tail: string)
    requires IsCut(tail)
    ensures '>' !in tail && StartsFresh(tail)
  {
  }

  lemma {:induction false} SourceBlanks(s: string)
    ensures ReplaceAll(s, SourceBlankAt) == Squash(s, IsSourceBlank, false)
  {
    hide ReplaceAll, Squash, RunAt;
    ReplaceRuns(s, IsSourceBlank, SourceBlankAt);
  }

  lemma OneStep(cs: seq<Chunk>, tail: string, cut: string, n: nat)
    requires ArePieces(cs, tail) && IsCut(cut) && n < 7
    ensures ReplaceAll(Passed(cs, false, n) + cut, Step(n)) == Passed(cs, false, n + 1) + cut
  {
    hide *;
    CutIs(cut);
    StepPass(cs, tail, cut, false, n);
    StepsNeedEnd(n);
    CutCopied(cut, Step(n));
  }

  lemma {:induction false} BreakTagsIs(html: string)
    ensures BreakTags(html) ==
      ReplaceAll(ReplaceAll(ReplaceAll(ReplaceAll(ReplaceAll(ReplaceAll(ReplaceAll(ReplaceAll(html,
        Step(0)), Step(1)), Step(2)), Step(3)), Step(4)), Step(5)), Step(6)), CutTagAt)
  {
    hide ReplaceAll;
  }

  lemma {:induction false} TagsBroken(cs: seq<Chunk>, tail: string, cut: string)
    requires ArePieces(cs, tail) && IsCut(cut)
    ensures BreakTags(Passed(cs, false, 0) + cut) == Quoted(cs, false)
  {
    hide *;
    BreakTagsIs(Passed(cs, false, 0) + cut);
    OneStep(cs, tail, cut, 0);
    OneStep(cs, tail, cut, 1);
    OneStep(cs, tail, cut, 2);
    OneStep(cs, tail, cut, 3);
    OneStep(cs, tail, cut, 4);
    OneStep(cs, tail, cut, 5);
    OneStep(cs, tail, cut, 6);
    NoTagLeft(cs, tail, false);
    CutTagGoes(Passed(cs, false, 7), cut);
    PassedIsQuoted(cs, false);
  }

  lemma ConverterIs(html: string)
    requires '\r' !in html && LooksLikeHtml(html)
    ensures HtmlToQuotedText(html)
         == TidyLines(DecodeEntities(BreakTags(ReplaceAll(WithoutHidden(DropNonContent(html)), SourceBlankAt))))
  {
    hide TidyLines, DecodeEntities, HasTagOrComment, BreakTags, ReplaceAll, WithoutHidden, DropNonContent, IsTagLike;
    HtmlNotEmpty(html);
    HtmlIff(html);
    NoReturns(html);
  }

  lemma HtmlNotEmpty(html: string)
    requires LooksLikeHtml(html)
    ensures html != ""
  {
  }

  lemma {:induction false} PageIs(cs: seq<Chunk>, tail: string, end: string)
    requires ArePieces(cs, tail) && '\r' !in Html(cs) + tail && LooksLikeHtml(Html(cs) + tail) && IsCut(end)
    requires ReplaceAll(tail, CommentAt) == tail && ReplaceAll(ReplaceAll(tail, BlockAt), OpenBlockAt) == end
    ensures HtmlToQuotedText(Html(cs) + tail) == TidyLines(DecodeEntities(Quoted(cs, false)))
  {
    hide *;
    ConverterIs(Html(cs) + tail);
    ContentLeft(cs, tail, end);
    var cut := BlanksLeft(cs, tail, end);
    TagsBroken(cs, tail, cut);
  }

  /** A page is quoted as the table says, and a tag cut off at its end is lost. */
  lemma {:induction false} PageQuoted(cs: seq<Chunk>, tail: string)
    requires ArePieces(cs, tail) && IsCut(tail) && HasMark(cs) && '\r' !in Html(cs) + tail
    ensures HtmlToQuotedText(Html(cs) + tail) == TidyLines(DecodeEntities(Quoted(cs, false)))
  {
    hide *;
    CutIs(tail);
    PageLooks(cs, tail);
    RemovalsNeedEnd();
    CutCopied(tail, CommentAt);
    CutCopied(tail, BlockAt);
    CutCopied(tail, OpenBlockAt);
    PageIs(cs, tail, tail);
  }

  lemma {:induction false} NoCommentStartHere(w: string)
    requires !HasCommentStart(w)
    ensures ReplaceAll(w, CommentAt) == w
  {
    forall i | 0 <= i < |w| ensures CommentAt(w[i..] + "").None? {
      Plainly(w[i..]);
      assert !StartsWith(w[i..], "<!--");
    }
    hide CommentAt, HasCommentStart;
    ReplaceAllCopies(w, "", CommentAt);
    NothingReplaced(CommentAt);
    Plainly(w);
  }

  lemma Swallowed(name: string, attrs: string, w: string)
    requires Fold(name) in {"style", "script"} && AllChars(attrs, IsNoBracket) && (attrs == "" || !IsWordChar(attrs[0]))
    requires !HasCommentStart(w) && !Laws.HasEnd(w, Fold(name))
    ensures var tail := Angled(name + attrs) + w;
      ReplaceAll(tail, CommentAt) == tail && ReplaceAll(ReplaceAll(tail, BlockAt), OpenBlockAt) == ""
  {
    hide AllChars, NO_CONTENT, Laws.HasEnd, HasCommentStart, ReplaceAll, BlockAt, OpenBlockAt, CommentAt, Fold, AfterClose,
      StartsWith, IsClosing, Word, Angled, IsWordChar, Pages.MatchesTags, Skips;
    var head := name + attrs;
    RawIsNoContent(Fold(name));
    BlockHead(name, attrs);
    CommentMatcher();
    BlockMatcher();
    OrdinaryCommentSkips(head);
    OneSkips(CommentAt, head, w);
    TagCopied(head, w, CommentAt);
    NoCommentStartHere(w);
    BlockAtIs(head, w);
    Laws.NoEnd(w, Fold(name));
    TagCopied(head, w, BlockAt);
    var x := Angled(head) + ReplaceAll(w, BlockAt);
    OpenBlockIs(head, ReplaceAll(w, BlockAt));
    Plainly(x);
    NothingReplaced(OpenBlockAt);
    ReplaceAllHit(x, "", OpenBlockAt, "");
  }

  /** A style or script that nothing closes takes the rest of the page with it. */
  lemma {:induction false} RestSwallowed(cs: seq<Chunk>, name: string, attrs: string, w: string)
    requires Fold(name) in {"style", "script"} && AllChars(attrs, IsNoBracket) && (attrs == "" || !IsWordChar(attrs[0]))
    requires !HasCommentStart(w) && !Laws.HasEnd(w, Fold(name))
    requires ArePieces(cs, Angled(name + attrs) + w) && '\r' !in Html(cs) + (Angled(name + attrs) + w)
    ensures HtmlToQuotedText(Html(cs) + (Angled(name + attrs) + w)) == TidyLines(DecodeEntities(Quoted(cs, false)))
  {
    hide *;
    var tail := Angled(name + attrs) + w;
    Swallowed(name, attrs, w);
    RawIsNoContent(Fold(name));
    NameIsPlain(name);
    NameStarts(name, attrs);
    MarkedTag(name + attrs, w);
    HtmlAfter(Html(cs), tail);
    NoCut();
    PageIs(cs, tail, "");
  }

  lemma NoCut()
    ensures IsCut("")
  {
  }

  lemma {:induction false} LineEndCopied(a: string, r: string)
    requires '\r' !in a
    ensures ReplaceAll(a + r, LineEndAt) == a + ReplaceAll(r, LineEndAt)
  {
    forall i | 0 <= i < |a| ensures LineEndAt(a[i..] + r).None? {
      StartsDifferently(a[i..] + r, "\r\n", 0);
      StartsDifferently(a[i..] + r, "\r", 0);
    }
    hide LineEndAt;
    ReplaceAllCopies(a, r, LineEndAt);
  }

  lemma {:induction false} LineEndHere(b: string)
    ensures ReplaceAll("\r\n" + b, LineEndAt) == "\n" + ReplaceAll(b, LineEndAt)
    ensures b == "" || b[0] != '\n' ==> ReplaceAll("\r" + b, LineEndAt) == "\n" + ReplaceAll(b, LineEndAt)
  {
    hide ReplaceAll;
    assert ("\r\n" + b)[..2] == "\r\n";
    ReplaceAllHit("\r\n", b, LineEndAt, "\n");
    if b == "" || b[0] != '\n' {
      assert ("\r" + b)[..1] == "\r" && |"\r" + b| >= 2 ==> ("\r" + b)[1] == b[0];
      if |"\r" + b| >= 2 {
        StartsDifferently("\r" + b, "\r\n", 1);
      }
      ReplaceAllHit("\r", b, LineEndAt, "\n");
    }
  }

  lemma {:induction false} EndsAlike(a: string, b: string)
    requires a != "" && b != "" && ReplaceAll(a, LineEndAt) == ReplaceAll(b, LineEndAt)
    ensures HtmlToQuotedText(a) == HtmlToQuotedText(b)
  {
    hide ReplaceAll, HasTagOrComment, TidyLines, DecodeEntities, WithoutHidden, DropNonContent, BreakTags;
  }

  /** A carriage return, alone or before a newline, reads as the newline. */
  lemma LineEndsAlike(a: string, b: string)
    requires '\r' !in a
    ensures HtmlToQuotedText(a + ("\r\n" + b)) == HtmlToQuotedText(a + ("\n" + b))
    ensures b == "" || b[0] != '\n' ==> HtmlToQuotedText(a + ("\r" + b)) == HtmlToQuotedText(a + ("\n" + b))
  {
    hide ReplaceAll, HtmlToQuotedText;
    LineEndCopied(a, "\r\n" + b);
    LineEndCopied(a, "\r" + b);
    LineEndCopied(a, "\n" + b);
    LineEndCopied("\n", b);
    LineEndHere(b);
    EndsAlike(a + ("\r\n" + b), a + ("\n" + b));
    if b == "" || b[0] != '\n' {
      EndsAlike(a + ("\r" + b), a + ("\n" + b));
    }
  }
}
