/** The reply quote (`buildReplyQuote` of `shared/quoted-html.ts`): whatever the
    quoted body is, it stays inside the quote's own elements. */
module QuoteBlocks {
  import opened Strings
  import opened Entities
  import opened Attributes
  import opened Sanitizer
  import opened SanitizerProofs
  import opened QuotedText
  import opened QuoteRoundTrip

  const BLOCKQUOTE_STYLE :=
    "margin:0px 0px 0px 0.8ex;" + ("border-left:1px solid " + ("rgb(204,204,204);" + "padding-left:1ex"))

  const QUOTE_RAWS: seq<RawAttr> := [RawAttr("class", "gmail_quote inboxies_quote")]

  const ATTRIBUTION_RAWS: seq<RawAttr> := [RawAttr("dir", "ltr"), RawAttr("class", "gmail_attr")]

  const BLOCKQUOTE_RAWS: seq<RawAttr> :=
    [RawAttr("class", "gmail_quote"), RawAttr("type", "cite"), RawAttr("style", BLOCKQUOTE_STYLE)]

  /** The `html` part of a reply quote, for an attribution line and a body. */
  function ReplyQuoteHtml(attribution: string, body: string): string {
    TagText(false, "br", []) + (
    TagText(false, "div", QUOTE_RAWS) + (
    TagText(false, "div", ATTRIBUTION_RAWS) + (
    EscapeHtml(attribution) + (
    TagText(false, "br", []) + (
    TagText(true, "div", []) + (
    TagText(false, "blockquote", BLOCKQUOTE_RAWS) + (
    QuotedBodyHtml(body) + (
    TagText(true, "blockquote", []) +
    TagText(true, "div", []) ))))))))
  }

  /** The elements open after `ts`, or nothing when a closing tag does not close
      the innermost open element. */
  function NestTags(ts: seq<Tag>, open: seq<string>): Option<seq<string>> {
    if ts == [] then Some(open)
    else if ts[0].closing then
      if open != [] && open[|open| - 1] == ts[0].name then NestTags(ts[1..], open[..|open| - 1]) else None
    else NestTags(ts[1..], if IsVoid(ts[0].name) then open else open + [ts[0].name])
  }

  lemma {:induction false} NestTagsConcat(a: seq<Tag>, b: seq<Tag>, open: seq<string>)
    requires NestTags(a, open).Some?
    ensures NestTags(a + b, open) == NestTags(b, NestTags(a, open).value)
  {
    if a == [] {
      assert a + b == b;
    } else {
      assert (a + b)[1..] == a[1..] + b;
      if a[0].closing {
        NestTagsConcat(a[1..], b, open[..|open| - 1]);
      } else {
        NestTagsConcat(a[1..], b, if IsVoid(a[0].name) then open else open + [a[0].name]);
      }
    }
  }

  /** Tags that nest on their own nest inside any open elements, and close none
      of them. */
  lemma {:induction false} NestTagsInside(ts: seq<Tag>, outer: seq<string>, open: seq<string>)
    requires NestTags(ts, open).Some?
    ensures NestTags(ts, outer + open) == Some(outer + NestTags(ts, open).value)
  {
    hide IsVoid;
    if ts != [] {
      var all, name := outer + open, ts[0].name;
      if ts[0].closing {
        assert all[..|all| - 1] == outer + open[..|open| - 1];
        NestTagsInside(ts[1..], outer, open[..|open| - 1]);
      } else if IsVoid(name) {
        NestTagsInside(ts[1..], outer, open);
      } else {
        assert all + [name] == outer + (open + [name]);
        NestTagsInside(ts[1..], outer, open + [name]);
      }
    }
  }

  lemma {:induction false} NestOfTokens(ts: seq<Token>, open: seq<string>)
    requires Nest(ts, open).Some?
    ensures NestTags(TokenTags(ts), open) == Nest(ts, open)
  {
    hide IsVoid, TagText, TokenRaws;
    if ts != [] {
      match ts[0] {
        case Chr(_) => NestOfTokens(ts[1..], open);
        case Open(name, _) =>
          NestOfTokens(ts[1..], if IsVoid(name) then open else open + [name]);
          assert TokenTags(ts)[1..] == TokenTags(ts[1..]);
        case Close(name) =>
          NestOfTokens(ts[1..], open[..|open| - 1]);
          assert TokenTags(ts)[1..] == TokenTags(ts[1..]);
      }
    }
  }

  // ---- The frame's tags

  lemma FrameNames()
    ensures IsTagName("br") && IsTagName("div") && IsTagName("blockquote")
    ensures IsVoid("br") && !IsVoid("div") && !IsVoid("blockquote")
  {
    FrameKinds();
    FrameDropped();
    hide IsVoid, IsAllowed, IsDropped;
    NameShape("br");
    NameShape("div");
    NameShape("blockquote");
    hide AllChars, Lower;
  }

  lemma FrameKinds()
    ensures IsAllowed("br") && IsAllowed("div") && IsAllowed("blockquote")
    ensures IsVoid("br") && !IsVoid("div") && !IsVoid("blockquote")
  {
  }

  lemma FrameDropped()
    ensures !IsDropped("br") && !IsDropped("div") && !IsDropped("blockquote")
  {
  }

  lemma NameShape(name: string)
    requires name != "" && forall i | 0 <= i < |name| :: 'a' <= name[i] <= 'z'
    ensures IsLetter(name[0]) && Lower(name) == name && AllChars(name, IsTagNameChar)
    ensures AllChars(name, IsAttrNameChar)
  {
  }

  predicate IsUnquoted(s: string) {
    '"' !in s
  }

  lemma UnquotedStyle()
    ensures IsUnquoted(BLOCKQUOTE_STYLE)
  {
    assert '"' !in "margin:0px 0px 0px 0.8ex;";
    assert '"' !in "border-left:1px solid ";
    assert '"' !in "rgb(204,204,204);";
    assert '"' !in "padding-left:1ex";
  }

  lemma UnquotedTexts()
    ensures IsUnquoted("gmail_quote inboxies_quote") && IsUnquoted("gmail_quote") && IsUnquoted("cite")
    ensures IsUnquoted("ltr") && IsUnquoted("gmail_attr")
  {
  }

  predicate IsPlainRaw(a: RawAttr) {
    IsScanned(a) && IsUnquoted(a.raw)
  }

  lemma PrintableIs(raws: seq<RawAttr>)
    requires forall i | 0 <= i < |raws| :: IsPlainRaw(raws[i])
    ensures ArePrintable(raws)
  {
    hide IsScanned;
    forall i | 0 <= i < |raws| ensures IsScanned(raws[i]) {
      assert IsPlainRaw(raws[i]);
    }
    forall i | 0 <= i < |raws| ensures '"' !in raws[i].raw {
      assert IsPlainRaw(raws[i]);
    }
  }

  lemma FrameRaws()
    ensures ArePrintable(QUOTE_RAWS) && ArePrintable(ATTRIBUTION_RAWS) && ArePrintable(BLOCKQUOTE_RAWS)
  {
    NameShape("class");
    NameShape("dir");
    NameShape("type");
    NameShape("style");
    UnquotedStyle();
    UnquotedTexts();
    hide AllChars, Lower, IsUnquoted, ArePrintable;
    PrintableIs(QUOTE_RAWS);
    PrintableIs(ATTRIBUTION_RAWS);
    PrintableIs(BLOCKQUOTE_RAWS);
  }

  function FrameBefore(): seq<Tag> {
    [PrintedTag(false, "br", []), PrintedTag(false, "div", QUOTE_RAWS),
     PrintedTag(false, "div", ATTRIBUTION_RAWS), PrintedTag(false, "br", []),
     PrintedTag(true, "div", []), PrintedTag(false, "blockquote", BLOCKQUOTE_RAWS)]
  }

  function FrameAfter(): seq<Tag> {
    [PrintedTag(true, "blockquote", []), PrintedTag(true, "div", [])]
  }

  // ---- The body's tags

  lemma EscapedNoTag(s: string)
    ensures '<' !in EscapeHtml(s)
  {
    if s != "" {
      EscapeHtmlCons(s);
      EscapedNoTag(s[1..]);
    }
  }

  /** The tags of a plain page: its `div` and a `br` for each break. */
  function PieceTags(ps: seq<Piece>): seq<Tag> {
    if ps == [] then []
    else if ps[0].Break? then [PrintedTag(false, "br", [])] + PieceTags(ps[1..])
    else PieceTags(ps[1..])
  }

  lemma PageTexts()
    ensures BR == TagText(false, "br", []) && END == TagText(true, "div", [])
    ensures DIV == TagText(false, "div", [RawAttr("dir", "auto")])
    ensures ArePrintable([RawAttr("dir", "auto")])
  {
    AutoPrintable();
    AutoText();
    hide ArePrintable;
    assert BR == TagText(false, "br", []);
    assert END == TagText(true, "div", []);
    assert Lead(false) + "div" + " dir=\"auto\"" + ">" == DIV;
  }

  lemma AutoPrintable()
    ensures ArePrintable([RawAttr("dir", "auto")])
  {
    NameShape("dir");
    assert IsUnquoted("auto");
    hide AllChars, IsUnquoted, ArePrintable, Lower;
    PrintableIs([RawAttr("dir", "auto")]);
  }

  lemma AutoText()
    ensures RenderRaws([RawAttr("dir", "auto")]) == " dir=\"auto\""
  {
    var raws := [RawAttr("dir", "auto")];
    assert raws[1..] == [];
    assert RenderRaws(raws) == RenderRaw(raws[0]) + RenderRaws([]);
  }

  lemma {:induction false} PieceTag(p: Piece, r: string)
    ensures TagsOf(Coded(p, '\r') + r) == (if p.Break? then [PrintedTag(false, "br", [])] else []) + TagsOf(r)
  {
    if p.Break? {
      PageTexts();
      FrameNames();
      NothingPrintable();
      hide TagsOf, TagText, IsTagName;
      TagsOfTag(false, "br", [], r);
    } else {
      CharTextHead(p.c);
      hide TagsOf;
      TagsOfChars(Coded(p, '\r'), r);
    }
  }

  lemma {:induction false} TagsOfPieces(ps: seq<Piece>, y: string)
    ensures TagsOf(CodedAll(ps, '\r') + y) == PieceTags(ps) + TagsOf(y)
  {
    if ps == [] {
      assert "" + y == y;
    } else {
      CodedCons(ps, '\r', y);
      PieceTag(ps[0], CodedAll(ps[1..], '\r') + y);
      hide TagsOf, CodedAll, Coded, PrintedTag;
      TagsOfPieces(ps[1..], y);
    }
  }

  lemma {:induction false} NestPieces(ps: seq<Piece>, open: seq<string>)
    ensures NestTags(PieceTags(ps), open) == Some(open)
  {
    if ps != [] {
      FrameNames();
      hide IsVoid, IsTagName, TagText;
      NestPieces(ps[1..], open);
      if ps[0].Break? {
        assert PieceTags(ps)[1..] == PieceTags(ps[1..]);
      }
    }
  }

  /** A quoted body's tags stand on their own, whatever follows them. */
  lemma {:induction false} BodyTags(body: string, y: string)
    ensures TagsOf(QuotedBodyHtml(body) + y) == TagsOf(QuotedBodyHtml(body)) + TagsOf(y)
    ensures NestTags(TagsOf(QuotedBodyHtml(body)), []) == Some([])
  {
    if body == "" {
      assert "" + y == y;
      NoTags();
    } else if HasTag(body) {
      SanitizedBodyTags(body, y);
    } else {
      BreaksCoded(Trim(body));
      PlainPageTags(Pieces(Trim(body)), y);
    }
    hide TagsOf, NestTags, Sanitized, HasTag, ReplaceAll, CodedAll, EscapeHtml;
  }

  lemma {:induction false} SanitizedBodyTags(body: string, y: string)
    ensures TagsOf(Sanitized(body) + y) == TagsOf(Sanitized(body)) + TagsOf(y)
    ensures NestTags(TagsOf(Sanitized(body)), []) == Some([])
  {
    SanitizedReadsBack(body);
    NoTags();
    hide Lex, Nest, TagsOf, Render, AreClean, Sanitized, TokenTags, NestTags, Balance;
    var html, ts := Sanitized(body), Lex(Sanitized(body));
    assert html + "" == html;
    TagsOfRender(ts, y);
    TagsOfRender(ts, "");
    assert TokenTags(ts) + [] == TokenTags(ts);
    NestOfTokens(ts, []);
  }

  lemma {:induction false} PlainPageTags(ps: seq<Piece>, y: string)
    ensures var html := DIV + CodedAll(ps, '\r') + END;
      TagsOf(html + y) == TagsOf(html) + TagsOf(y) && NestTags(TagsOf(html), []) == Some([])
  {
    NoTags();
    hide TagsOf, NestTags, PlainBodyTags, CodedAll;
    var html := DIV + CodedAll(ps, '\r') + END;
    PlainTags(ps, y);
    PlainTags(ps, "");
    assert html + "" == html;
    assert PlainBodyTags(ps) + [] == PlainBodyTags(ps);
    NestPlain(ps);
  }

  lemma NoTags()
    ensures TagsOf("") == []
  {
  }

  function PlainBodyTags(ps: seq<Piece>): seq<Tag> {
    [PrintedTag(false, "div", [RawAttr("dir", "auto")])] + PieceTags(ps) + [PrintedTag(true, "div", [])]
  }

  lemma {:induction false} PlainBodyTagsThen(ps: seq<Piece>, rest: seq<Tag>)
    ensures PlainBodyTags(ps) + rest ==
      [PrintedTag(false, "div", [RawAttr("dir", "auto")])] + (PieceTags(ps) + ([PrintedTag(true, "div", [])] + rest))
  {
    hide PrintedTag, PieceTags;
  }

  lemma {:induction false} PlainTags(ps: seq<Piece>, y: string)
    ensures TagsOf(DIV + CodedAll(ps, '\r') + END + y) == PlainBodyTags(ps) + TagsOf(y)
  {
    hide *;
    PageTexts();
    FrameNames();
    NothingPrintable();
    var r := CodedAll(ps, '\r') + (END + y);
    assert DIV + CodedAll(ps, '\r') + END + y == DIV + r;
    TagsOfTag(false, "div", [RawAttr("dir", "auto")], r);
    TagsOfPieces(ps, END + y);
    TagsOfTag(true, "div", [], y);
    PlainBodyTagsThen(ps, TagsOf(y));
  }

  lemma NothingPrintable()
    ensures ArePrintable([])
  {
  }

  lemma NestPlain(ps: seq<Piece>)
    ensures NestTags(PlainBodyTags(ps), []) == Some([])
  {
    FrameNames();
    hide IsTagName, IsVoid, TagText, PieceTags;
    var ts := PlainBodyTags(ps);
    var close := [PrintedTag(true, "div", [])];
    assert ts[1..] == PieceTags(ps) + close;
    assert [] + ["div"] == ["div"];
    NestPieces(ps, ["div"]);
    NestTagsConcat(PieceTags(ps), close, ["div"]);
    assert close[1..] == [] && ["div"][..0] == [];
  }

  // ---- Main result

  /** A reply quote's tags are those of its frame with the body's in between; the
      body closes none of the elements around it, and the whole is well-nested. */
  lemma ReplyQuoteContained(attribution: string, body: string)
    ensures var ts := TagsOf(ReplyQuoteHtml(attribution, body));
      var inner := TagsOf(QuotedBodyHtml(body));
      && ts == FrameBefore() + inner + FrameAfter()
      && NestTags(FrameBefore(), []) == Some(["div", "blockquote"])
      && (forall outer: seq<string> :: NestTags(inner, outer) == Some(outer))
      && NestTags(ts, []) == Some([])
  {
    QuoteTags(attribution, body);
    BodyTags(body, "");
    var inner := TagsOf(QuotedBodyHtml(body));
    hide TagsOf, ReplyQuoteHtml, QuotedBodyHtml;
    forall outer: seq<string> ensures NestTags(inner, outer) == Some(outer) {
      NestTagsInside(inner, outer, []);
      assert outer + [] == outer;
    }
    FrameNests();
    hide NestTags, FrameBefore, FrameAfter;
    NestTagsConcat(FrameBefore() + inner, FrameAfter(), []) by {
      NestTagsConcat(FrameBefore(), inner, []);
    }
    NestTagsConcat(FrameBefore(), inner, []);
  }

  lemma FrameNests()
    ensures NestTags(FrameBefore(), []) == Some(["div", "blockquote"])
    ensures NestTags(FrameAfter(), ["div", "blockquote"]) == Some([])
  {
    FrameNames();
    hide IsTagName, IsVoid, TagText;
    var ts := FrameBefore();
    assert ts[1..][1..] == ts[2..] && ts[2..][1..] == ts[3..] && ts[3..][1..] == ts[4..];
    assert ts[4..][1..] == ts[5..] && ts[5..][1..] == [];
    assert ts[5..][0] == ts[5];
    assert ["div"] + ["blockquote"] == ["div", "blockquote"];
    NestTagsEnd(["div", "blockquote"]);
    assert NestTags(ts[5..], ["div"]) == Some(["div", "blockquote"]);
    assert ["div", "div"][..1] == ["div"];
    assert NestTags(ts[4..], ["div", "div"]) == NestTags(ts[5..], ["div"]);
    assert NestTags(ts[3..], ["div", "div"]) == NestTags(ts[4..], ["div", "div"]);
    assert ["div"] + ["div"] == ["div", "div"];
    assert NestTags(ts[2..], ["div"]) == NestTags(ts[3..], ["div", "div"]);
    assert [] + ["div"] == ["div"];
    assert NestTags(ts[1..], []) == NestTags(ts[2..], ["div"]);
    FrameAfterNests();
  }

  lemma FrameAfterNests()
    ensures NestTags(FrameAfter(), ["div", "blockquote"]) == Some([])
  {
    hide TagText;
    var zs := FrameAfter();
    var both, one, none: seq<string> := ["div", "blockquote"], ["div"], [];
    var end := zs[1..];
    assert end[0] == zs[1] && end[1..] == [];
    assert both[..1] == one;
    assert one[..0] == none;
    NestTagsEnd(none);
    assert NestTags(end, one) == NestTags(end[1..], none);
  }

  lemma {:induction false} NestTagsEnd(open: seq<string>)
    ensures NestTags([], open) == Some(open)
  {
  }

  lemma QuoteTags(attribution: string, body: string)
    ensures TagsOf(ReplyQuoteHtml(attribution, body))
         == FrameBefore() + TagsOf(QuotedBodyHtml(body)) + FrameAfter()
  {
    FrameNames();
    FrameRaws();
    EscapedNoTag(attribution);
    NothingPrintable();
    NoTags();
    hide IsTagName, TagText, TagsOf, ArePrintable, QuotedBodyHtml, EscapeHtml;
    var s9 := TagText(true, "div", []);
    assert s9 + "" == s9;
    TagsOfTag(true, "div", [], "");
    var s8 := TagText(true, "blockquote", []) + s9;
    TagsOfTag(true, "blockquote", [], s9);
    var s7 := QuotedBodyHtml(body) + s8;
    BodyTags(body, s8);
    var s6 := TagText(false, "blockquote", BLOCKQUOTE_RAWS) + s7;
    TagsOfTag(false, "blockquote", BLOCKQUOTE_RAWS, s7);
    var s5 := TagText(true, "div", []) + s6;
    TagsOfTag(true, "div", [], s6);
    var s4 := TagText(false, "br", []) + s5;
    TagsOfTag(false, "br", [], s5);
    var s3 := EscapeHtml(attribution) + s4;
    TagsOfChars(EscapeHtml(attribution), s4);
    var s2 := TagText(false, "div", ATTRIBUTION_RAWS) + s3;
    TagsOfTag(false, "div", ATTRIBUTION_RAWS, s3);
    var s1 := TagText(false, "div", QUOTE_RAWS) + s2;
    TagsOfTag(false, "div", QUOTE_RAWS, s2);
    TagsOfTag(false, "br", [], s1);
  }
}
