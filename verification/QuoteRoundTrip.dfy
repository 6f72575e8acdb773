/** A plain-text body quoted as HTML (`quotedBodyHtml`) and read back as text
    (`htmlToQuotedText`). */
module QuoteRoundTrip {
  import opened Strings
  import opened Entities
  import opened Sanitizer
  import opened QuotedText
  import opened TidyText

  const DIV := "<div dir=\"auto\">"
  const BR := "<br>"
  const END := "</div>"

  /** `\r?\n` to a break. */
  function BreakAt(s: string): Option<Hit> {
    if StartsWith(s, "\r\n") then Some(Hit(2, BR))
    else if StartsWith(s, "\n") then Some(Hit(1, BR))
    else None
  }

  function PlainBodyHtml(body: string): string {
    DIV + ReplaceAll(EscapeHtml(Trim(body)), BreakAt) + END
  }

  function QuotedBodyHtml(body: string): string {
    if body == "" then ""
    else if HasTag(body) then Sanitized(body)
    else PlainBodyHtml(body)
  }

  /** Line ends as `\n`; a lone carriage return and a form feed are blanks. */
  function NormalBreaks(s: string): string {
    if s == "" then ""
    else if StartsWith(s, "\r\n") then "\n" + NormalBreaks(s[2..])
    else (if s[0] == '\r' || s[0] == '\U{C}' then " " else [s[0]]) + NormalBreaks(s[1..])
  }

  // ---- The body through the passes

  /** A plain body, character by character; every `\r?\n` is one break. */
  datatype Piece = Break | Char(c: char)

  function Pieces(t: string): seq<Piece> {
    if t == "" then []
    else if StartsWith(t, "\r\n") then [Break] + Pieces(t[2..])
    else [if t[0] == '\n' then Break else Char(t[0])] + Pieces(t[1..])
  }

  predicate IsBlank(p: Piece) {
    p.Char? && (p.c == ' ' || p.c == '\t' || p.c == '\r' || p.c == '\U{C}')
  }

  /** The escaped piece; `cr` stands for a lone carriage return. */
  function Coded(p: Piece, cr: char): string {
    match p
    case Break => BR
    case Char(c) => if c == '\r' then [cr] else HtmlCharText(c)
  }

  function CodedAll(ps: seq<Piece>, cr: char): string {
    if ps == [] then "" else Coded(ps[0], cr) + CodedAll(ps[1..], cr)
  }

  /** The piece once source blanks are collapsed, `br` standing for a break. */
  function Collapsed(p: Piece, inRun: bool, br: string): string {
    match p
    case Break => br
    case Char(c) => if IsBlank(p) then if inRun then "" else " " else HtmlCharText(c)
  }

  function CollapsedAll(ps: seq<Piece>, inRun: bool, br: string): string {
    if ps == [] then "" else Collapsed(ps[0], inRun, br) + CollapsedAll(ps[1..], IsBlank(ps[0]), br)
  }

  /** The piece as it reaches `tidyLines`. */
  function Plain(p: Piece, inRun: bool): string {
    match p
    case Break => "\n"
    case Char(c) => if IsBlank(p) then if inRun then "" else " " else [c]
  }

  function PlainAll(ps: seq<Piece>, inRun: bool): string {
    if ps == [] then "" else Plain(ps[0], inRun) + PlainAll(ps[1..], IsBlank(ps[0]))
  }

  lemma {:induction false} CodedCons(ps: seq<Piece>, cr: char, r: string)
    requires ps != []
    ensures CodedAll(ps, cr) + r == Coded(ps[0], cr) + (CodedAll(ps[1..], cr) + r)
  {
    hide Coded;
  }

  lemma {:induction false} CollapsedCons(ps: seq<Piece>, inRun: bool, br: string, r: string)
    requires ps != []
    ensures CollapsedAll(ps, inRun, br) + r
         == Collapsed(ps[0], inRun, br) + (CollapsedAll(ps[1..], IsBlank(ps[0]), br) + r)
  {
    hide Collapsed, IsBlank;
  }

  lemma {:induction false} PlainCons(ps: seq<Piece>, inRun: bool, r: string)
    requires ps != []
    ensures PlainAll(ps, inRun) + r == Plain(ps[0], inRun) + (PlainAll(ps[1..], IsBlank(ps[0])) + r)
  {
    hide Plain, IsBlank;
  }

  predicate NoNewlines(ps: seq<Piece>) {
    forall i | 0 <= i < |ps| :: ps[i] != Char('\n')
  }

  lemma {:induction false} PiecesNoNewlines(t: string)
    ensures NoNewlines(Pieces(t))
    decreases |t|
  {
    if t != "" {
      PiecesNoNewlines(t[if StartsWith(t, "\r\n") then 2 else 1..]);
    }
  }

  predicate IsNotSourceBlank(x: char) {
    !IsSourceBlank(x)
  }

  lemma CharTextHead(c: char)
    ensures var h := HtmlCharText(c);
      && h != "" && '<' !in h && '>' !in h
      && (c != '\r' && c != '\n' ==> '\r' !in h && '\n' !in h && h[0] != '\n')
      && ((c == '\r' || c == '\n') ==> h == [c])
      && (c != '\n' && !IsBlank(Char(c)) ==> AllChars(h, IsNotSourceBlank))
  {
  }

  lemma {:induction false} CopyNoBreak(h: string, r: string)
    requires '\r' !in h && '\n' !in h
    ensures ReplaceAll(h + r, BreakAt) == h + ReplaceAll(r, BreakAt)
    ensures ReplaceAll(h + r, LineEndAt) == h + ReplaceAll(r, LineEndAt)
  {
    forall i | 0 <= i < |h| ensures BreakAt(h[i..] + r).None? && LineEndAt(h[i..] + r).None? {
      assert (h[i..] + r)[0] == h[i];
    }
    ReplaceAllCopies(h, r, BreakAt);
    ReplaceAllCopies(h, r, LineEndAt);
  }

  lemma {:induction false} ReturnAlone(r: string)
    requires r == "" || r[0] != '\n'
    ensures ReplaceAll("\r" + r, BreakAt) == "\r" + ReplaceAll(r, BreakAt)
    ensures ReplaceAll("\r" + r, LineEndAt) == "\n" + ReplaceAll(r, LineEndAt)
  {
    var s := "\r" + r;
    assert s[1..] == r;
    assert |s| > 1 ==> s[..2][1] == r[0];
    assert BreakAt(s).None?;
    ReplaceAllHit("\r", r, LineEndAt, "\n");
  }

  lemma {:induction false} CodedHead(ps: seq<Piece>, r: string)
    requires NoNewlines(ps) && (r == "" || r[0] != '\n')
    ensures CodedAll(ps, '\r') + r == "" || (CodedAll(ps, '\r') + r)[0] != '\n'
  {
    if ps != [] {
      if ps[0].Char? {
        CharTextHead(ps[0].c);
      }
    } else {
      assert "" + r == r;
    }
  }

  /** The escape and the break replace, one piece of the body at a time. */
  lemma {:induction false} BreaksCoded(t: string)
    ensures ReplaceAll(EscapeHtml(t), BreakAt) == CodedAll(Pieces(t), '\r')
    decreases |t|
  {
    if t != "" {
      hide EscapeHtml, HtmlCharText;
      EscapeHtmlCons(t);
      CharTextHead(t[0]);
      if StartsWith(t, "\r\n") {
        BreaksCoded(t[2..]);
        EscapeReturn(t);
        ReplaceAllHit("\r\n", EscapeHtml(t[2..]), BreakAt, BR);
      } else {
        BreaksCoded(t[1..]);
        if t[0] == '\r' && |t| > 1 {
          assert t[..2] == ['\r', t[1]];
          assert t[1..][0] == t[1];
        }
        BreakCoded(t[0], EscapeHtml(t[1..]), t[1..]);
      }
    }
  }

  lemma ReturnHead(t: string)
    requires StartsWith(t, "\r\n")
    ensures |t| >= 2 && t[0] == '\r' && t[1] == '\n'
  {
    assert t[..2][0] == t[0] && t[..2][1] == t[1];
  }

  lemma EscapeReturn(t: string)
    requires StartsWith(t, "\r\n")
    ensures EscapeHtml(t) == "\r\n" + EscapeHtml(t[2..])
  {
    hide *;
    ReturnHead(t);
    CharTextHead('\r');
    CharTextHead('\n');
    EscapeHtmlCons(t);
    EscapeHtmlCons(t[1..]);
    assert t[1..][1..] == t[2..];
    var r := EscapeHtml(t[2..]);
    assert "\r" + ("\n" + r) == "\r\n" + r;
  }

  lemma {:induction false} BreakCoded(c: char, r: string, rest: string)
    requires r == EscapeHtml(rest)
    requires c == '\r' ==> rest == "" || rest[0] != '\n'
    ensures ReplaceAll(HtmlCharText(c) + r, BreakAt)
         == Coded(if c == '\n' then Break else Char(c), '\r') + ReplaceAll(r, BreakAt)
  {
    CharTextHead(c);
    hide HtmlCharText;
    if c == '\n' {
      var s := "\n" + r;
      assert s[..1] == "\n" && (|s| >= 2 ==> s[..2][0] == '\n');
      ReplaceAllHit("\n", r, BreakAt, BR);
    } else if c == '\r' {
      if rest == "" {
        assert r == "";
      } else {
        EscapeHtmlCons(rest);
        CharTextHead(rest[0]);
        assert r[0] == HtmlCharText(rest[0])[0];
      }
      ReturnAlone(r);
    } else {
      CopyNoBreak(HtmlCharText(c), r);
    }
  }

  lemma {:induction false} LineEndCoded(p: Piece, r: string)
    requires p != Char('\n') && (r == "" || r[0] != '\n')
    ensures ReplaceAll(Coded(p, '\r') + r, LineEndAt) == Coded(p, '\n') + ReplaceAll(r, LineEndAt)
  {
    match p {
      case Break => CopyNoBreak(BR, r);
      case Char(c) =>
        CharTextHead(c);
        if c == '\r' {
          ReturnAlone(r);
        } else {
          CopyNoBreak(HtmlCharText(c), r);
        }
    }
  }

  /** Line ends of the HTML: only lone carriage returns are left to replace. */
  lemma {:induction false} LineEndsCoded(ps: seq<Piece>, r: string)
    requires NoNewlines(ps) && (r == "" || r[0] != '\n')
    ensures ReplaceAll(CodedAll(ps, '\r') + r, LineEndAt) == CodedAll(ps, '\n') + ReplaceAll(r, LineEndAt)
  {
    hide Coded, ReplaceAll, LineEndAt;
    if ps == [] {
      assert "" + r == r;
    } else {
      hide CodedAll;
      CodedHead(ps[1..], r);
      LineEndsCoded(ps[1..], r);
      LineEndCoded(ps[0], CodedAll(ps[1..], '\r') + r);
      CodedCons(ps, '\r', r);
      CodedCons(ps, '\n', ReplaceAll(r, LineEndAt));
    }
  }

  lemma {:induction false} SquashCoded(p: Piece, r: string, inRun: bool)
    requires p != Char('\n')
    ensures Squash(Coded(p, '\n') + r, IsSourceBlank, inRun)
         == Collapsed(p, inRun, BR) + Squash(r, IsSourceBlank, IsBlank(p))
  {
    match p {
      case Break => SquashPlain(BR, r, IsSourceBlank, inRun);
      case Char(c) =>
        CharTextHead(c);
        if IsBlank(p) {
          var d := if c == '\r' then '\n' else c;
          assert Coded(p, '\n') == [d];
          assert ([d] + r)[1..] == r;
        } else {
          SquashPlain(HtmlCharText(c), r, IsSourceBlank, inRun);
        }
    }
  }

  lemma {:induction false} SquashAllCoded(ps: seq<Piece>, r: string, inRun: bool)
    requires NoNewlines(ps) && r != "" && !IsSourceBlank(r[0])
    ensures Squash(CodedAll(ps, '\n') + r, IsSourceBlank, inRun)
         == CollapsedAll(ps, inRun, BR) + Squash(r, IsSourceBlank, false)
  {
    if ps == [] {
      assert "" + r == r;
      assert Squash(r, IsSourceBlank, inRun) == Squash(r, IsSourceBlank, false);
    } else {
      hide Coded, CodedAll, Collapsed, CollapsedAll, IsBlank, Squash;
      SquashCoded(ps[0], CodedAll(ps[1..], '\n') + r, inRun);
      SquashAllCoded(ps[1..], r, IsBlank(ps[0]));
      CodedCons(ps, '\n', r);
      CollapsedCons(ps, inRun, BR, Squash(r, IsSourceBlank, false));
    }
  }

  // ---- Tags in the page

  /** A text whose only tags are breaks. */
  predicate IsBody(s: string) {
    forall i | 0 <= i < |s| && s[i] == '<' :: StartsWith(s[i..], BR)
  }

  lemma IsBodyConcat(a: string, b: string)
    requires IsBody(a) && IsBody(b)
    ensures IsBody(a + b)
  {
    forall i | 0 <= i < |a + b| && (a + b)[i] == '<' ensures StartsWith((a + b)[i..], BR) {
      if i < |a| {
        assert (a + b)[i..] == a[i..] + b;
        assert (a[i..] + b)[..4] == a[i..][..4];
      } else {
        assert (a + b)[i..] == b[i - |a|..];
      }
    }
  }

  lemma TaglessIsBody(h: string)
    requires '<' !in h
    ensures IsBody(h)
  {
  }

  lemma BreakIsBody()
    ensures IsBody(BR)
  {
    assert BR[0..] == BR;
  }

  lemma PieceIsBody(p: Piece, inRun: bool)
    ensures IsBody(Coded(p, '\n')) && IsBody(Collapsed(p, inRun, BR))
  {
    hide IsBody, HtmlCharText, IsBlank, BR;
    if p.Char? {
      CharTextHead(p.c);
      TaglessIsBody(Coded(p, '\n'));
      TaglessIsBody(Collapsed(p, inRun, BR));
    } else {
      BreakIsBody();
    }
  }

  lemma {:induction false} AllIsBody(ps: seq<Piece>, inRun: bool)
    ensures IsBody(CodedAll(ps, '\n')) && IsBody(CollapsedAll(ps, inRun, BR))
  {
    if ps != [] {
      hide IsBody, Coded, Collapsed, IsBlank;
      PieceIsBody(ps[0], inRun);
      AllIsBody(ps[1..], IsBlank(ps[0]));
      IsBodyConcat(Coded(ps[0], '\n'), CodedAll(ps[1..], '\n'));
      IsBodyConcat(Collapsed(ps[0], inRun, BR), CollapsedAll(ps[1..], IsBlank(ps[0]), BR));
    } else {
      assert IsBody("");
    }
  }

  lemma NamedTagWhole(s: string, slash: Slash, names: set<string>, p: nat, name: string, j: nat)
    requires s != "" && s[0] == '<' && p == (if |s| > 1 && s[1] == '/' then 2 else 1)
    requires p + |name| + j < |s| && s[p..p + |name|] == name && AllChars(name, IsWordChar)
    requires !IsWordChar(s[p + |name|])
    requires s[p + |name| + j] == '>' && '>' !in s[p + |name|..p + |name| + j]
    ensures NamedTag(s, slash, names)
         == if (p == 2 && slash.Without?) || (p == 1 && slash.Required?) || Fold(name) !in names then None
            else Some(p + |name| + j + 1)
  {
    hide Run, IndexOf;
    var k := p + |name|;
    assert Run(s[p..], IsWordChar) == |name| by {
      assert forall i | 0 <= i < |name| :: s[p..][i] == s[p..k][i];
      RunIs(s[p..], IsWordChar, |name|);
    }
    assert IndexOf(s[k..], '>') == Some(j) by {
      assert s[k..][..j] == s[k..k + j];
      IndexOfIs(s[k..], '>', j);
    }
  }

  lemma WordOf(name: string)
    requires forall i | 0 <= i < |name| :: 'a' <= name[i] <= 'z'
    ensures AllChars(name, IsWordChar) && Fold(name) == name
  {
  }

  lemma BreakTag(x: string, slash: Slash, names: set<string>)
    ensures NamedTag(BR + x, slash, names)
         == if slash.Required? || "br" !in names then None else Some(4)
  {
    var s := BR + x;
    WordOf("br");
    assert s[1..3] == "br" && s[3] == '>';
    NamedTagWhole(s, slash, names, 1, "br", 0);
  }

  lemma EndTag(x: string, slash: Slash, names: set<string>)
    ensures NamedTag(END + x, slash, names)
         == if slash.Without? || "div" !in names then None else Some(6)
  {
    var s := END + x;
    WordOf("div");
    assert s[2..5] == "div" && s[5] == '>';
    NamedTagWhole(s, slash, names, 2, "div", 0);
  }

  lemma DivTagText(x: string)
    ensures var s := DIV + x;
      && |s| >= 16 && s[0] == '<' && s[1] != '/' && s[1..4] == "div" && s[4] == ' ' && s[15] == '>'
      && '>' !in s[4..15]
  {
    assert (DIV + x)[4..15] == DIV[4..15];
  }

  lemma DivTag(x: string, slash: Slash, names: set<string>)
    ensures NamedTag(DIV + x, slash, names)
         == if slash.Required? || "div" !in names then None else Some(16)
  {
    DivTagText(x);
    WordOf("div");
    assert !IsWordChar(' ');
    hide DIV, AllChars, IsWordChar, Fold, NamedTag;
    NamedTagWhole(DIV + x, slash, names, 1, "div", 11);
  }

  // ---- The passes over the whole page

  function Page(body: string): string {
    DIV + body + END
  }

  /** An expression that matches neither plain text nor the page's tags. */
  ghost predicate SkipsPage(m: Matcher) {
    forall x: string | x != "" &&
        (x[0] != '<' || StartsWith(x, BR) || StartsWith(x, DIV) || StartsWith(x, END)) :: m(x).None?
  }

  lemma PageSuffix(body: string, i: nat)
    requires IsBody(body) && i < |Page(body)|
    ensures var x := Page(body)[i..];
      x != "" && (x[0] != '<' || StartsWith(x, BR) || StartsWith(x, DIV) || StartsWith(x, END))
  {
    var p := Page(body);
    assert '<' !in DIV[1..] && '<' !in END[1..];
    if i == 0 {
      assert p[0..][..16] == DIV;
    } else if i < 16 {
      assert p[i] == DIV[1..][i - 1];
    } else if i < 16 + |body| {
      assert p[i..] == body[i - 16..] + END;
      if body[i - 16] == '<' {
        assert (body[i - 16..] + END)[..4] == body[i - 16..][..4];
      }
    } else if i == 16 + |body| {
      assert p[i..] == END;
    } else {
      assert p[i] == END[1..][i - 17 - |body|];
    }
  }

  lemma PassSkips(body: string, m: Matcher)
    requires IsBody(body) && SkipsPage(m)
    ensures ReplaceAll(Page(body), m) == Page(body)
  {
    var p := Page(body);
    forall i | 0 <= i < |p| ensures m(p[i..] + "").None? {
      assert p[i..] + "" == p[i..];
      PageSuffix(body, i);
    }
    ReplaceAllCopies(p, "", m);
    assert p + "" == p;
  }

  lemma NamedTagSkips(names: set<string>)
    requires "br" !in names && "div" !in names
    ensures forall x: string, slash: Slash | x != "" &&
        (x[0] != '<' || StartsWith(x, BR) || StartsWith(x, DIV) || StartsWith(x, END)) ::
          NamedTag(x, slash, names).None?
  {
    forall x: string, slash: Slash | x != "" &&
        (x[0] != '<' || StartsWith(x, BR) || StartsWith(x, DIV) || StartsWith(x, END))
      ensures NamedTag(x, slash, names).None?
    {
      if StartsWith(x, BR) {
        assert x == BR + x[4..];
        BreakTag(x[4..], slash, names);
      } else if StartsWith(x, DIV) {
        assert x == DIV + x[16..];
        DivTag(x[16..], slash, names);
      } else if StartsWith(x, END) {
        assert x == END + x[6..];
        EndTag(x[6..], slash, names);
      }
    }
  }

  lemma NonContentSkips()
    ensures SkipsPage(CommentAt) && SkipsPage(BlockAt) && SkipsPage(OpenBlockAt)
  {
    NamedTagSkips(NON_CONTENT);
    NamedTagSkips({"style", "script"});
    hide NamedTag;
    forall x: string | x != "" &&
        (x[0] != '<' || StartsWith(x, BR) || StartsWith(x, DIV) || StartsWith(x, END))
      ensures CommentAt(x).None?
    {
      assert |x| >= 4 ==> x[..4][1] == x[1];
      assert StartsWith(x, BR) ==> x[..4][1] == 'b';
      assert StartsWith(x, DIV) ==> x[..16][1] == 'd';
      assert StartsWith(x, END) ==> x[..6][1] == '/';
    }
  }

  /** Nothing in the page is dropped as non-content. */
  lemma NonContentKept(body: string)
    requires IsBody(body)
    ensures DropNonContent(Page(body)) == Page(body)
  {
    NonContentSkips();
    hide SkipsPage, IsBody, CommentAt, BlockAt, OpenBlockAt, ReplaceAll;
    PassSkips(body, CommentAt);
    PassSkips(body, BlockAt);
    PassSkips(body, OpenBlockAt);
  }

  /** The page holds no hidden element: no tag of it has a style. */
  lemma {:induction false} NothingHidden(body: string, i: nat)
    requires IsBody(body) && i <= |Page(body)|
    ensures WithoutHidden(Page(body)[i..]) == Page(body)[i..]
    decreases |Page(body)| - i
  {
    hide *;
    var p := Page(body);
    WithoutHiddenStep(p[i..]);
    if i < |p| {
      PageSuffix(body, i);
      PageOpensNothing(p[i..]);
      NothingHidden(body, i + 1);
      assert p[i..][1..] == p[i + 1..];
      assert p[i..] == p[i..][..1] + p[i + 1..];
    }
  }

  lemma PageOpensNothing(x: string)
    requires x != ""
    requires x[0] != '<' || StartsWith(x, BR) || StartsWith(x, DIV) || StartsWith(x, END)
    ensures OpenerAt(x).None?
  {
    if StartsWith(x, BR) {
      var name := x[1..];
      assert x[..4] == BR && name[0] == BR[1] && name[1] == BR[2] && name[2] == BR[3];
      RunIs(name, IsAlnum, 2);
      assert x[3..][0] == '>';
      RunIs(x[3..], IsNotTagEnd, 0);
    } else if StartsWith(x, DIV) {
      NoOpenerDiv(x);
    } else if StartsWith(x, END) {
      assert x[..6][1] == x[1];
    }
  }

  lemma DivChars(x: string)
    requires StartsWith(x, DIV)
    ensures 16 <= |x| && x[0] == '<' && IsLetter(x[1]) && x[4] == ' ' && x[15] == '>'
    ensures forall i | 1 <= i < 4 :: IsAlnum(x[i])
    ensures forall i | 4 <= i < 15 :: IsNotTagEnd(x[i])
    ensures forall i | 4 <= i <= 15 :: FoldChar(x[i]) != 's'
  {
    assert forall i | 0 <= i < 16 :: x[i] == x[..16][i];
    assert forall i | 0 <= i < 16 :: x[i] == DIV[i];
  }

  lemma NoOpenerDiv(x: string)
    requires StartsWith(x, DIV)
    ensures OpenerAt(x).None?
  {
    DivChars(x);
    hide StartsWith, FoldChar, IsLetter, LastStyle, Run, Fold;
    assert Run(x[1..], IsAlnum) == 3 by { RunIs(x[1..], IsAlnum, 3); }
    assert Run(x[4..], IsNotTagEnd) == 11 by { RunIs(x[4..], IsNotTagEnd, 11); }
    NoStyleWithin(x, 4, 11);
  }

  lemma {:induction false} NoStyleWithin(s: string, k: nat, q: nat)
    requires 0 < k && k + q <= |s|
    requires forall i | k <= i <= k + q && i < |s| :: FoldChar(s[i]) != 's'
    ensures LastStyle(s, k, q).None?
  {
    if k + q < |s| {
      assert s[k + q..][0] == s[k + q];
    }
    NoStyleHere(s[k + q..]);
    hide StyleAt, FoldChar;
    if q > 0 {
      NoStyleWithin(s, k, q - 1);
    }
  }

  lemma NoStyleHere(t: string)
    requires t == "" || FoldChar(t[0]) != 's'
    ensures StyleAt(t).None?
  {
    assert |t| >= 5 ==> Fold(t[..5])[0] == FoldChar(t[0]);
  }

  lemma PageSplit(body: string)
    ensures Page(body) == DIV + (body + END)
  {
  }

  /** Source blanks of the page: the body is collapsed, the tags are not. */
  lemma {:induction false} PageCollapsed(ps: seq<Piece>)
    requires NoNewlines(ps)
    ensures ReplaceAll(Page(CodedAll(ps, '\n')), SourceBlankAt) == Page(CollapsedAll(ps, false, BR))
  {
    var body := CodedAll(ps, '\n');
    ReplaceRuns(Page(body), IsSourceBlank, SourceBlankAt);
    PageSplit(body);
    PageSplit(CollapsedAll(ps, false, BR));
    hide Page, Squash, CodedAll, CollapsedAll, ReplaceAll;
    SquashDiv(body + END);
    SquashAllCoded(ps, END, false);
    SquashEnd();
  }

  lemma SquashEnd()
    ensures Squash(END, IsSourceBlank, false) == END
  {
    SquashPlain(END, "", IsSourceBlank, false);
    assert END + "" == END;
  }

  lemma {:induction false} SquashAround(a: string, b: string, r: string)
    requires a != "" && b != "" && AllChars(a, IsNotSourceBlank) && AllChars(b, IsNotSourceBlank)
    ensures Squash(a + (" " + (b + r)), IsSourceBlank, false) == a + (" " + (b + Squash(r, IsSourceBlank, false)))
  {
    SquashPlain(a, " " + (b + r), IsSourceBlank, false);
    assert (" " + (b + r))[1..] == b + r;
    SquashPlain(b, r, IsSourceBlank, true);
  }

  lemma DivParts(r: string)
    ensures AllChars(DIV[..4], IsNotSourceBlank) && AllChars(DIV[5..], IsNotSourceBlank)
    ensures DIV + r == DIV[..4] + (" " + (DIV[5..] + r))
  {
    DivText();
    hide DIV;
    assert DIV == DIV[..4] + (" " + DIV[5..]);
  }

  lemma DivText()
    ensures |DIV| == 16 && DIV[4] == ' '
    ensures AllChars(DIV[..4], IsNotSourceBlank) && AllChars(DIV[5..], IsNotSourceBlank)
  {
    assert DIV[..4] == "<div";
    assert DIV[5..] == "dir=\"auto\">";
  }

  lemma {:induction false} SquashDiv(r: string)
    ensures Squash(DIV + r, IsSourceBlank, false) == DIV + Squash(r, IsSourceBlank, false)
  {
    hide Squash, AllChars;
    DivParts(r);
    DivParts(Squash(r, IsSourceBlank, false));
    SquashAround(DIV[..4], DIV[5..], r);
  }

  // ---- Breaks and block tags become newlines

  lemma {:induction false} BrPassPiece(p: Piece, inRun: bool, r: string)
    ensures ReplaceAll(Collapsed(p, inRun, BR) + r, BrAt) == Collapsed(p, inRun, "\n") + ReplaceAll(r, BrAt)
  {
    match p {
      case Break =>
        BreakTag(r, Without, {"br"});
        ReplaceAllHit(BR, r, BrAt, "\n");
      case Char(c) =>
        CharTextHead(c);
        CopyText(Collapsed(p, inRun, BR), r, BrAt);
    }
  }

  /** An expression that matches at a `<` only. */
  ghost predicate MatchesTags(m: Matcher) {
    forall x: string | x != "" && x[0] != '<' :: m(x).None?
  }

  lemma {:induction false} CopyText(t: string, r: string, m: Matcher)
    requires '<' !in t && MatchesTags(m)
    ensures ReplaceAll(t + r, m) == t + ReplaceAll(r, m)
  {
    forall i | 0 <= i < |t| ensures m(t[i..] + r).None? {
      assert (t[i..] + r)[0] == t[i];
    }
    ReplaceAllCopies(t, r, m);
  }

  lemma {:induction false} BrPass(ps: seq<Piece>, inRun: bool, r: string)
    ensures ReplaceAll(CollapsedAll(ps, inRun, BR) + r, BrAt)
         == CollapsedAll(ps, inRun, "\n") + ReplaceAll(r, BrAt)
  {
    if ps == [] {
      assert "" + r == r;
    } else {
      hide Collapsed, CollapsedAll, IsBlank, ReplaceAll, BrAt;
      BrPassPiece(ps[0], inRun, CollapsedAll(ps[1..], IsBlank(ps[0]), BR) + r);
      BrPass(ps[1..], IsBlank(ps[0]), r);
      CollapsedCons(ps, inRun, BR, r);
      CollapsedCons(ps, inRun, "\n", ReplaceAll(r, BrAt));
    }
  }

  lemma TagMatchers()
    ensures MatchesTags(BrAt) && MatchesTags(ItemAt) && MatchesTags(ParagraphAt) && MatchesTags(LineTagAt)
    ensures MatchesTags(RuleAt) && MatchesTags(AnyTagAt) && MatchesTags(CutTagAt)
  {
    hide Run, IndexOf;
  }

  lemma CellMatcher()
    ensures MatchesTags(CellEndAt)
  {
    forall x: string | x != "" && x[0] != '<' ensures CellEndAt(x).None? {
      assert |x| >= 2 ==> x[..2][0] == x[0];
    }
  }

  /** A tag the expression does not match is copied. */
  lemma {:induction false} CopyTag(tag: string, r: string, m: Matcher)
    requires tag != "" && '<' !in tag[1..] && MatchesTags(m) && m(tag + r).None?
    ensures ReplaceAll(tag + r, m) == tag + ReplaceAll(r, m)
  {
    hide ReplaceAll, MatchesTags;
    TailConcat(tag, r);
    ReplaceAllStep(tag + r, m);
    CopyText(tag[1..], r, m);
    Rejoin(tag, ReplaceAll(r, m));
  }

  lemma {:induction false} ReplaceAllStep(s: string, m: Matcher)
    requires s != "" && m(s).None?
    ensures ReplaceAll(s, m) == [s[0]] + ReplaceAll(s[1..], m)
  {
  }

  lemma {:induction false} CopyLast(tag: string, m: Matcher)
    requires tag != "" && '<' !in tag[1..] && MatchesTags(m) && m(tag).None?
    ensures ReplaceAll(tag, m) == tag
  {
    assert tag + "" == tag && ReplaceAll("", m) == "";
    CopyTag(tag, "", m);
  }

  lemma PageTagTexts()
    ensures '<' !in DIV[1..] && '<' !in END[1..]
  {
  }

  /** A pass that knows neither `div` nor `br` leaves `<div…>text</div>` alone. */
  lemma PassKeepsPage(text: string, m: Matcher)
    requires '<' !in text && MatchesTags(m)
    requires m(DIV + (text + END)).None? && m(END).None?
    ensures ReplaceAll(Page(text), m) == Page(text)
  {
    PageTagTexts();
    PageSplit(text);
    hide Page, ReplaceAll, MatchesTags;
    CopyTag(DIV, text + END, m);
    CopyText(text, END, m);
    CopyLast(END, m);
  }

  lemma {:induction false} ReplaceBoth(a: string, t: string, z: string, m: Matcher)
    requires a != "" && z != "" && '<' !in t && MatchesTags(m)
    requires m(a + (t + z)) == Some(Hit(|a|, "\n")) && m(z) == Some(Hit(|z|, "\n"))
    ensures ReplaceAll(a + (t + z), m) == "\n" + t + "\n"
  {
    ReplaceAllHit(a, t + z, m, "\n");
    CopyText(t, z, m);
    assert z + "" == z && ReplaceAll("", m) == "";
    ReplaceAllHit(z, "", m, "\n");
  }

  lemma DivPass(text: string)
    requires '<' !in text
    ensures ReplaceAll(Page(text), LineTagAt) == "\n" + text + "\n"
  {
    TagMatchers();
    DivTag(text + END, Optional, LINE_TAGS);
    EndTag("", Optional, LINE_TAGS);
    assert END + "" == END;
    PageSplit(text);
    hide NamedTag, Page, ReplaceAll, MatchesTags;
    ReplaceBoth(DIV, text, END, LineTagAt);
  }

  lemma {:induction false} TextPass(text: string, m: Matcher)
    requires '<' !in text && MatchesTags(m)
    ensures ReplaceAll(text, m) == text
  {
    CopyText(text, "", m);
    assert text + "" == text && ReplaceAll("", m) == "";
  }

  lemma {:induction false} FlatNoTag(ps: seq<Piece>, inRun: bool)
    ensures '<' !in CollapsedAll(ps, inRun, "\n")
  {
    if ps != [] {
      if ps[0].Char? {
        CharTextHead(ps[0].c);
      }
      FlatNoTag(ps[1..], IsBlank(ps[0]));
    }
  }

  lemma {:induction false} BrPassPage(ps: seq<Piece>)
    ensures ReplaceAll(Page(CollapsedAll(ps, false, BR)), BrAt) == Page(CollapsedAll(ps, false, "\n"))
  {
    var r := CollapsedAll(ps, false, BR) + END;
    TagMatchers();
    PageTagTexts();
    DivTag(r, Without, {"br"});
    EndTag("", Without, {"br"});
    assert END + "" == END;
    PageSplit(CollapsedAll(ps, false, BR));
    PageSplit(CollapsedAll(ps, false, "\n"));
    assert BrAt(DIV + r).None? && BrAt(END).None?;
    hide BrAt, NamedTag, Page, ReplaceAll, MatchesTags, CollapsedAll;
    CopyTag(DIV, r, BrAt);
    BrPass(ps, false, END);
    CopyLast(END, BrAt);
  }

  lemma NamedPass(text: string, slash: Slash, names: set<string>, m: Matcher)
    requires '<' !in text && MatchesTags(m) && "div" !in names
    requires forall x: string | NamedTag(x, slash, names).None? :: m(x).None?
    ensures ReplaceAll(Page(text), m) == Page(text)
  {
    DivTag(text + END, slash, names);
    EndTag("", slash, names);
    assert END + "" == END;
    hide NamedTag;
    PassKeepsPage(text, m);
  }

  lemma ItemAndParagraphPass(text: string)
    requires '<' !in text
    ensures ReplaceAll(ReplaceAll(Page(text), ItemAt), ParagraphAt) == Page(text)
  {
    TagMatchers();
    hide NamedTag, Page, ReplaceAll, MatchesTags;
    NamedPass(text, Without, {"li"}, ItemAt);
    NamedPass(text, Optional, PARAGRAPH_TAGS, ParagraphAt);
  }

  lemma {:induction false} FlatPasses(flat: string)
    requires '<' !in flat
    ensures ReplaceAll(ReplaceAll(ReplaceAll(ReplaceAll(flat, RuleAt), CellEndAt), AnyTagAt), CutTagAt) == flat
  {
    TagMatchers();
    CellMatcher();
    hide ReplaceAll, MatchesTags;
    TextPass(flat, RuleAt);
    TextPass(flat, CellEndAt);
    TextPass(flat, AnyTagAt);
    TextPass(flat, CutTagAt);
  }

  /** The tag passes on the page: breaks and the `div` become newlines. */
  lemma {:induction false} BreakTagsPage(ps: seq<Piece>)
    ensures BreakTags(Page(CollapsedAll(ps, false, BR))) == "\n" + CollapsedAll(ps, false, "\n") + "\n"
  {
    hide Page, ReplaceAll, CollapsedAll;
    var text := CollapsedAll(ps, false, "\n");
    FlatNoTag(ps, false);
    BrPassPage(ps);
    ItemAndParagraphPass(text);
    DivPass(text);
    FlatPasses("\n" + text + "\n");
  }

  // ---- Decoding

  lemma DecodePiece(p: Piece, inRun: bool, r: string)
    ensures DecodeEntities(Collapsed(p, inRun, "\n") + r) == Plain(p, inRun) + DecodeEntities(r)
  {
    hide DecodeEntities, HtmlCharText;
    match p {
      case Break => DecodePlain('\n', r);
      case Char(c) =>
        if !IsBlank(p) {
          DecodeCharText(c, r);
        } else if inRun {
          assert "" + r == r;
          assert "" + DecodeEntities(r) == DecodeEntities(r);
        } else {
          DecodePlain(' ', r);
        }
    }
  }

  lemma {:induction false} DecodeAll(ps: seq<Piece>, inRun: bool, r: string)
    ensures DecodeEntities(CollapsedAll(ps, inRun, "\n") + r) == PlainAll(ps, inRun) + DecodeEntities(r)
  {
    if ps == [] {
      assert "" + r == r;
      assert "" + DecodeEntities(r) == DecodeEntities(r);
    } else {
      hide Collapsed, CollapsedAll, Plain, PlainAll, IsBlank, DecodeEntities;
      DecodePiece(ps[0], inRun, CollapsedAll(ps[1..], IsBlank(ps[0]), "\n") + r);
      DecodeAll(ps[1..], IsBlank(ps[0]), r);
      CollapsedCons(ps, inRun, "\n", r);
      PlainCons(ps, inRun, DecodeEntities(r));
    }
  }

  lemma {:induction false} DecodePage(ps: seq<Piece>)
    ensures DecodeEntities("\n" + CollapsedAll(ps, false, "\n") + "\n") == "\n" + PlainAll(ps, false) + "\n"
  {
    var flat := CollapsedAll(ps, false, "\n");
    assert "\n" + flat + "\n" == "\n" + (flat + "\n");
    DecodePlain('\n', flat + "\n");
    DecodeAll(ps, false, "\n");
    DecodePlain('\n', "");
    assert "\n" + "" == "\n" && DecodeEntities("") == "";
  }

  // ---- The text that arrives is the body, collapsed

  lemma {:induction false} PlainIsSquash(t: string, inRun: bool)
    ensures PlainAll(Pieces(t), inRun) == Squash(NormalBreaks(t), IsPlainBlank, inRun)
    decreases |t|
  {
    if t != "" {
      var n := if StartsWith(t, "\r\n") then 2 else 1;
      var ps, p := Pieces(t), Pieces(t)[0];
      assert ps[1..] == Pieces(t[n..]);
      PlainIsSquash(t[n..], IsBlank(p));
      var head := if n == 2 then '\n' else if t[0] == '\r' || t[0] == '\U{C}' then ' ' else t[0];
      var rest := NormalBreaks(t[n..]);
      assert NormalBreaks(t) == [head] + rest;
      assert ([head] + rest)[1..] == rest;
      assert t[0] == '\n' ==> !StartsWith(t, "\r\n") by {
        assert |t| >= 2 ==> t[..2][0] == t[0];
      }
    }
  }

  lemma ConcatStart(a: string, b: string)
    requires a != "" && (b == "" || a[|a| - 1] != '\r' || b[0] != '\n')
    ensures StartsWith(a + b, "\r\n") == StartsWith(a, "\r\n")
  {
    if |a| >= 2 {
      assert (a + b)[..2] == a[..2];
    } else if b != "" {
      assert (a + b)[..2] == [a[0], b[0]];
    }
  }

  function BreakLength(s: string): nat {
    if StartsWith(s, "\r\n") then 2 else 1
  }

  function BreakText(s: string): string
    requires s != ""
  {
    if BreakLength(s) == 2 then "\n" else if s[0] == '\r' || s[0] == '\U{C}' then " " else [s[0]]
  }

  lemma {:induction false} NormalStep(s: string)
    requires s != ""
    ensures 0 < BreakLength(s) <= |s| && NormalBreaks(s) == BreakText(s) + NormalBreaks(s[BreakLength(s)..])
  {
  }

  lemma {:induction false} NormalStepConcat(a: string, b: string)
    requires a != "" && (b == "" || a[|a| - 1] != '\r' || b[0] != '\n')
    ensures BreakLength(a) <= |a| && NormalBreaks(a + b) == BreakText(a) + NormalBreaks(a[BreakLength(a)..] + b)
  {
    BreakConcat(a, b);
    hide BreakLength, BreakText, NormalBreaks;
    NormalStep(a);
    NormalStep(a + b);
    DropConcat(a, b, BreakLength(a));
  }

  lemma BreakConcat(a: string, b: string)
    requires a != "" && (b == "" || a[|a| - 1] != '\r' || b[0] != '\n')
    ensures BreakLength(a + b) == BreakLength(a) && BreakText(a + b) == BreakText(a)
  {
    ConcatStart(a, b);
    TailConcat(a, b);
    hide StartsWith;
  }

  lemma DropConcat(a: string, b: string, n: nat)
    requires n <= |a|
    ensures (a + b)[n..] == a[n..] + b
  {
  }

  lemma NothingNormal()
    ensures NormalBreaks("") == ""
  {
  }

  lemma Regroup(a: string, b: string, c: string)
    ensures a + (b + c) == (a + b) + c
  {
  }

  lemma {:induction false} NormalConcat(a: string, b: string)
    requires a == "" || b == "" || a[|a| - 1] != '\r' || b[0] != '\n'
    ensures NormalBreaks(a + b) == NormalBreaks(a) + NormalBreaks(b)
    decreases |a|
  {
    hide *;
    if a == "" {
      assert a + b == b && "" + NormalBreaks(b) == NormalBreaks(b);
      NothingNormal();
    } else {
      NormalStepConcat(a, b);
      NormalStep(a);
      var n := BreakLength(a);
      assert n < |a| ==> a[n..][|a| - n - 1] == a[|a| - 1];
      NormalConcat(a[n..], b);
      Regroup(BreakText(a), NormalBreaks(a[n..]), NormalBreaks(b));
    }
  }

  lemma {:induction false} NormalBlank(a: string)
    requires AllChars(a, IsSpace)
    ensures AllChars(NormalBreaks(a), IsSpace)
    decreases |a|
  {
    if a != "" {
      NormalBlank(a[if StartsWith(a, "\r\n") then 2 else 1..]);
    }
  }

  lemma {:induction false} TrimIs(p: string, k: nat, e: nat)
    requires k == Run(p, IsSpace) && e == k + TrimEndLength(p[k..])
    ensures Trim(p) == p[k..e]
  {
    hide Run, TrimEndLength, IsSpace;
  }

  /** White space around the body is lost on both ways. */
  lemma {:induction false} NormalTrim(p: string)
    ensures TidyLines(NormalBreaks(Trim(p))) == TidyLines(NormalBreaks(p))
  {
    hide *;
    var k := Run(p, IsSpace);
    var e := k + TrimEndLength(p[k..]);
    TrimIs(p, k, e);
    if k == e {
      assert p[k..e] == "";
      AllSpace(p, k, e);
      NormalNothing(p);
    } else {
      TrimParts(p, k, e);
      ThreeParts(p, k, e);
      NormalAround(p[..k], p[k..e], p[e..]);
    }
  }

  lemma ThreeParts(p: string, k: nat, e: nat)
    requires k <= e <= |p|
    ensures p[..k] + p[k..e] + p[e..] == p && p[..k] + p[k..e] == p[..e]
  {
  }

  lemma {:induction false} NormalNothing(p: string)
    requires AllChars(p, IsSpace)
    ensures TidyLines(NormalBreaks("")) == TidyLines(NormalBreaks(p))
  {
    NormalBlank(p);
    assert NormalBreaks("") == "";
    hide NormalBreaks, TidyLines, AllChars;
    TidyAround(NormalBreaks(p), "", "");
    assert NormalBreaks(p) + "" + "" == NormalBreaks(p);
  }

  lemma {:induction false} NormalAround(a: string, t: string, b: string)
    requires AllChars(a, IsSpace) && AllChars(b, IsSpace) && t != ""
    requires (a + t)[|a + t| - 1] != '\r' && t[0] != '\n'
    ensures TidyLines(NormalBreaks(t)) == TidyLines(NormalBreaks(a + t + b))
  {
    hide NormalBreaks, TidyLines, AllChars;
    NormalConcat(a + t, b);
    NormalConcat(a, t);
    NormalBlank(a);
    NormalBlank(b);
    TidyAround(NormalBreaks(a), NormalBreaks(t), NormalBreaks(b));
  }

  lemma {:induction false} TrimParts(p: string, k: nat, e: nat)
    requires k == Run(p, IsSpace) && e == k + TrimEndLength(p[k..]) && k < e
    ensures AllChars(p[..k], IsSpace) && AllChars(p[e..], IsSpace)
    ensures p[..e][|p[..e]| - 1] != '\r' && p[k..e][0] != '\n'
  {
    hide TrimEndLength, Run, IsSpace;
    var q := p[k..];
    var n := TrimEndLength(q);
    LineEndsAreSpace();
    assert q[0] == p[k] && !IsSpace(q[0]) && !IsSpace(q[n - 1]);
    assert p[e..] == q[n..];
    assert p[k..e][0] == q[0];
    assert p[..e][e - 1] == q[n - 1];
  }

  lemma LineEndsAreSpace()
    ensures IsSpace('\r') && IsSpace('\n')
  {
  }

  lemma {:induction false} AllSpace(p: string, k: nat, e: nat)
    requires k <= |p| && k == Run(p, IsSpace) && e == k + TrimEndLength(p[k..]) && e == k
    ensures AllChars(p, IsSpace)
  {
    assert forall i | k <= i < |p| :: p[i] == p[k..][i - k];
  }

  /** Quoting a plain-text body as HTML and reading it back as text gives the
      body, tidied, for every body without a tag. */
  lemma {:induction false} QuoteReadsBack(body: string)
    requires !HasTag(body)
    ensures HtmlToQuotedText(QuotedBodyHtml(body)) == TidyLines(NormalBreaks(body))
  {
    if body == "" {
      assert TidyLines(NormalBreaks("")) == "" by { NothingTidied(); }
    } else {
      var t := Trim(body);
      var ps := Pieces(t);
      PiecesNoNewlines(t);
      BreaksCoded(t);
      var html := Page(CodedAll(ps, '\r'));
      assert QuotedBodyHtml(body) == html;
      PageText(ps);
      PlainIsSquash(t, false);
      var z := Squash(NormalBreaks(t), IsPlainBlank, false);
      hide HtmlToQuotedText, NormalBreaks, TidyLines;
      TidyAround("\n", z, "\n");
      TidySquashed(NormalBreaks(t));
      NormalTrim(body);
    }
  }

  lemma {:induction false} PlainBreaks(body: string)
    requires '\r' !in body && '\U{C}' !in body
    ensures NormalBreaks(body) == body
  {
    if body != "" {
      assert body == [body[0]] + body[1..];
      assert |body| >= 2 ==> body[..2][0] == body[0];
      PlainBreaks(body[1..]);
    }
  }

  /** Without carriage returns and form feeds, nothing but tidying happens. */
  lemma QuoteReadsBackPlain(body: string)
    requires !HasTag(body) && '\r' !in body && '\U{C}' !in body
    ensures HtmlToQuotedText(QuotedBodyHtml(body)) == TidyLines(body)
  {
    QuoteReadsBack(body);
    PlainBreaks(body);
  }

  lemma NothingTidied()
    ensures TidyLines("") == ""
  {
    TidyIsFinish("");
    TrimStable("");
    assert TrimEach([""]) == [""];
  }

  /** All passes over the page of a plain body. */
  lemma {:induction false} PageText(ps: seq<Piece>)
    requires NoNewlines(ps)
    ensures HtmlToQuotedText(Page(CodedAll(ps, '\r'))) == TidyLines("\n" + PlainAll(ps, false) + "\n")
  {
    var input := Page(CodedAll(ps, '\n'));
    PageLineEnds(ps);
    AllIsBody(ps, false);
    PageHasTag(CodedAll(ps, '\n'));
    hide Page, CodedAll, CollapsedAll, PlainAll, IsBody, TidyLines, BreakTags, DecodeEntities, ReplaceAll;
    hide HasTagOrComment, DropNonContent, WithoutHidden;
    NonContentKept(CodedAll(ps, '\n'));
    NothingHidden(CodedAll(ps, '\n'), 0);
    assert input[0..] == input;
    PageCollapsed(ps);
    BreakTagsPage(ps);
    DecodePage(ps);
  }

  lemma {:induction false} PageLineEnds(ps: seq<Piece>)
    requires NoNewlines(ps)
    ensures Page(CodedAll(ps, '\r')) != ""
    ensures ReplaceAll(Page(CodedAll(ps, '\r')), LineEndAt) == Page(CodedAll(ps, '\n'))
  {
    PageSplit(CodedAll(ps, '\r'));
    PageSplit(CodedAll(ps, '\n'));
    NoBreaksInTags();
    hide Page, ReplaceAll, CodedAll;
    CopyNoBreak(DIV, CodedAll(ps, '\r') + END);
    LineEndsCoded(ps, END);
    CopyNoBreak(END, "");
    assert END + "" == END;
    NothingReplaced();
  }

  lemma NothingReplaced()
    ensures ReplaceAll("", LineEndAt) == ""
  {
  }

  lemma NoBreaksInTags()
    ensures '\r' !in DIV && '\n' !in DIV && '\r' !in END && '\n' !in END
  {
  }

  lemma PageHasTag(body: string)
    ensures HasTagOrComment(Page(body))
  {
    var p := Page(body);
    assert p[0..] == p && p[0] == '<' && p[1] == 'd' && p[15] == '>';
    assert p[2..][13] == '>';
    assert TagLikeAt(p[0..]);
  }
}
