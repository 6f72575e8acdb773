/** Which tags break the removal of hidden elements: exactly those whose last
    quoted style does not close in the tag. */
module HiddenLeaks {
  import opened Strings
  import opened QuotedText
  import opened HiddenElements

  /** The quote a tag leaves open. */
  function OpenQuote(t: string): char
    requires !ClosesLast(t)
  {
    var u := t[TagQuote(t).value..];
    u[StyleQuote(u).value]
  }

  /** One `>`, at the end. */
  predicate EndsTag(m: string) {
    m != "" && m[|m| - 1] == '>' && AllChars(m[..|m| - 1], IsNotTagEnd)
  }

  lemma {:induction false} QuoteAfter(u: string, b: nat, q: char, m: string)
    requires b < |u| && q != '>' && q !in u[b + 1..]
    ensures var s := u + (">" + ([q] + m));
      s[b] == u[b] && IndexOf(s[b + 1..], q) == Some(|u| - b)
  {
    var s, n := u + (">" + ([q] + m)), |u| - b;
    var r := s[b + 1..];
    assert r == u[b + 1..] + (">" + ([q] + m));
    assert r[n] == q && r[..n] == u[b + 1..] + ">";
    IndexOfIs(r, q, n);
  }

  lemma TagAfter(u: string, q: char, m: string)
    requires EndsTag(m)
    ensures |m| > 0 && IndexOf((u + (">" + ([q] + m)))[|u| + 2..], '>') == Some(|m| - 1)
  {
    assert (u + (">" + ([q] + m)))[|u| + 2..] == m;
    IndexOfIs(m, '>', |m| - 1);
  }

  /** A style left open by `u`, the rest of a tag, closes at its next quote. */
  lemma StyleLeaks(u: string, m: string)
    requires StyleQuote(u).Some? && !StyleCloses(u) && EndsTag(m)
    ensures var s := u + (">" + ([u[StyleQuote(u).value]] + m));
      StyleAt(s).Some? && StyleAt(s).value.length == |s|
  {
    hide *;
    QuoteIs(u);
    var b := StyleQuote(u).value;
    var q := u[b];
    StyleQuoteWithin(u, ">" + ([q] + m));
    QuoteAfter(u, b, q, m);
    TagAfter(u, q, m);
    StyleAtIs(u + (">" + ([q] + m)), b, |u| + 2, |m| - 1);
  }

  lemma QuoteIs(u: string)
    requires StyleQuote(u).Some?
    ensures u[StyleQuote(u).value] == '"' || u[StyleQuote(u).value] == '\''
    ensures StyleCloses(u) <==> u[StyleQuote(u).value] in u[StyleQuote(u).value + 1..]
  {
  }

  /** Followed by its own quote, the tag's opener runs on to the next `>`. */
  lemma OpenerLeaks(t: string, m: string)
    requires t != "" && AllChars(t, IsNotTagEnd) && !ClosesLast(t) && EndsTag(m)
    ensures var s := t + (">" + ([OpenQuote(t)] + m));
      OpenerAt(s).Some? && OpenerAt(s).value.length == |s|
  {
    var x := ">" + ([OpenQuote(t)] + m);
    LeaksFrom(t, TagQuote(t).value, m);
    hide StyleFrom, OpenerAt, TagQuote, StyleQuote, AllChars, EndsTag;
    OpenerFollows(t, x);
  }

  lemma LeaksFrom(t: string, p: nat, m: string)
    requires p <= |t| && StyleQuote(t[p..]).Some? && !StyleCloses(t[p..]) && EndsTag(m)
    ensures var s := t + (">" + ([t[p..][StyleQuote(t[p..]).value]] + m));
      StyleFrom(s, p).Some? && StyleFrom(s, p).value.length == |s|
  {
    hide StyleAt, StyleQuote, StyleCloses, EndsTag;
    var u := t[p..];
    var x := ">" + ([u[StyleQuote(u).value]] + m);
    StyleLeaks(u, m);
    assert (t + x)[p..] == u + x;
  }

  /** What opens at a tag's `<` is decided by the tag alone exactly when its last
      quoted style closes in it. */
  lemma OpenerWithinIff(t: string)
    requires t != "" && AllChars(t, IsNotTagEnd)
    ensures ClosesLast(t) <==>
      forall x: string, y: string | x != "" && x[0] == '>' && y != "" && y[0] == '>' ::
        OpenerAt(t + x) == OpenerAt(t + y)
  {
    hide OpenerAt, AllChars;
    if ClosesLast(t) {
      forall x: string, y: string | x != "" && x[0] == '>' && y != "" && y[0] == '>'
        ensures OpenerAt(t + x) == OpenerAt(t + y)
      {
        OpenerWithin(t, x, y);
      }
    } else {
      var x, y := ">" + ([OpenQuote(t)] + ">"), ">";
      assert EndsTag(">") by { EndsHere(); }
      hide ClosesLast;
      OpenerLeaks(t, ">");
      assert x[0] == '>' && |t + x| == |t + y| + 2;
      assert OpenerAt(t + x) != OpenerAt(t + y);
    }
  }

  lemma EndsHere()
    ensures EndsTag(">")
  {
  }

  // ---- A tag that breaks the removal

  const HIDER_STYLE := "style='display:none'"

  const HIDER := "b " + HIDER_STYLE

  lemma NoStyle(s: string)
    requires |s| < 2 || (s[0] != 's' && s[0] != 'S') || (s[1] != 't' && s[1] != 'T')
    ensures StyleQuote(s).None?
  {
    if |s| >= 5 {
      assert Fold(s[..5])[0] == FoldChar(s[0]) && Fold(s[..5])[1] == FoldChar(s[1]);
      assert "style"[0] == 's' && "style"[1] == 't';
    }
  }

  lemma {:induction false} LastQuoteSkips(t: string, k: nat, q: nat, p: nat)
    requires 0 < k <= p && p <= k + q <= |t|
    requires forall i | p < i <= k + q :: StyleQuote(t[i..]).None?
    ensures LastQuote(t, k, q) == LastQuote(t, k, p - k)
    decreases q
  {
    hide StyleQuote;
    if p < k + q {
      LastQuoteSkips(t, k, q - 1, p);
    }
  }

  lemma HiderShape()
    ensures var t := "<" + HIDER;
      && |t| == 23 && t[0] == '<' && t[1] == 'b' && t[2] == ' ' && AllChars(HIDER, IsNoBracket)
      && forall i | 3 < i < 22 :: (t[i] != 's' && t[i] != 'S') || (t[i + 1] != 't' && t[i + 1] != 'T')
  {
  }

  lemma HiderTail()
    ensures ("<" + HIDER)[3..] == HIDER_STYLE && "<" + HIDER == "<b " + HIDER_STYLE
  {
    var t := "<b " + HIDER_STYLE;
    assert "<" + ("b " + HIDER_STYLE) == t;
  }

  lemma HiderStyleShape()
    ensures |HIDER_STYLE| == 20 && HIDER_STYLE[..5] == "style" && HIDER_STYLE[5] == '='
    ensures HIDER_STYLE[6] == '\'' == HIDER_STYLE[19] && HIDER_STYLE[6..20] == "'display:none'"
    ensures '\'' !in HIDER_STYLE[7..19]
  {
  }

  lemma HiderStyle()
    ensures StyleQuote(HIDER_STYLE) == Some(6) && StyleCloses(HIDER_STYLE)
    ensures IndexOf(HIDER_STYLE[7..], HIDER_STYLE[6]) == Some(12)
  {
    var u := HIDER_STYLE;
    HiderStyleShape();
    hide HIDER_STYLE;
    assert Fold("style") == "style";
    RunIs(u[5..], IsSpace, 0);
    RunIs(u[6..], IsSpace, 0);
    assert u[7..][12] == '\'' && u[7..][..12] == u[7..19];
    IndexOfIs(u[7..], '\'', 12);
    hide Run, IndexOf;
  }

  /** The quote of a one-letter tag's only style. */
  lemma OneLetterName(t: string)
    requires |t| > 3 && t[0] == '<' && IsLetter(t[1]) && t[2] == ' '
    ensures Run(t[1..], IsAlnum) == 1 && OpensTag(t, 2) && !IsWordChar(t[2])
  {
    RunIs(t[1..], IsAlnum, 1);
    hide Run;
  }

  lemma NoLaterStyle(t: string)
    requires forall i | 3 < i < |t| - 1 :: (t[i] != 's' && t[i] != 'S') || (t[i + 1] != 't' && t[i + 1] != 'T')
    ensures forall i | 3 < i <= |t| :: StyleQuote(t[i..]).None?
  {
    hide StyleQuote;
    forall i | 3 < i <= |t| ensures StyleQuote(t[i..]).None? {
      NoStyle(t[i..]);
    }
  }

  /** The quote of a one-letter tag's only style. */
  lemma OnlyStyle(t: string)
    requires |t| > 3 && t[0] == '<' && IsLetter(t[1]) && t[2] == ' ' && StyleQuote(t[3..]).Some?
    requires forall i | 3 < i < |t| - 1 :: (t[i] != 's' && t[i] != 'S') || (t[i + 1] != 't' && t[i + 1] != 'T')
    ensures TagQuote(t) == Some(3)
  {
    hide *;
    OneLetterName(t);
    NoLaterStyle(t);
    TagQuoteIs(t, 2);
    LastQuoteSkips(t, 2, |t| - 2, 3);
    LastQuoteStep(t, 2, 1);
  }

  lemma HiderQuote()
    ensures TagQuote("<" + HIDER) == Some(3)
  {
    HiderShape();
    HiderStyle();
    HiderTail();
    assert IsLetter('b');
    hide *;
    OnlyStyle("<" + HIDER);
  }

  lemma DisplayLowers()
    ensures |Lower("'display:none'")| == 14 && Lower("'display:none'")[1..] == "display:none'"
  {
    var s := "'display:none'";
    assert forall i | 0 <= i < 14 :: LowerChar(s[i]) == s[i];
    assert Lower(s) == s;
  }

  lemma DisplayHides()
    ensures HidesAt("display:none'")
  {
    var s := "display:none'";
    RunIs(s[7..], IsSpace, 0);
    RunIs(s[8..], IsSpace, 0);
    assert s[..7] == "display" && s[8..][0..][..4] == "none";
  }

  lemma DisplayNone(o: Opener)
    requires o.style == "'display:none'"
    ensures IsHidden(o)
  {
    DisplayLowers();
    DisplayHides();
    hide HidesAt, Lower;
    assert HidesAt(Lower(o.style)[1..]);
  }

  lemma HiderStyleAt()
    ensures StyleAt(HIDER_STYLE + ">") == Some(Opener("", "'display:none'", 21))
  {
    HiderStyle();
    HiderStyleShape();
    HiderStyleFree();
    hide HIDER_STYLE, StyleQuote, StyleAt, IndexOf, AllChars, StyleCloses;
    StyleAtEnds(HIDER_STYLE, ">");
  }

  lemma HiderStyleFree()
    ensures AllChars(HIDER_STYLE, IsNotTagEnd)
  {
  }

  lemma HiderOpens()
    ensures var t := "<" + HIDER;
      OpenerAt(t + ">") == Some(Opener(TagName(t), "'display:none'", 24))
  {
    var t := "<" + HIDER;
    HiderShape();
    HiderTail();
    HiderStyleAt();
    HiderQuote();
    BracketFree(HIDER);
    hide HIDER, HIDER_STYLE, OpenerAt, TagQuote, StyleAt, AllChars, TagName, StyleFrom;
    StyleFromIs(t, ">", 3, Opener("", "'display:none'", 21));
    OpenerFollows(t, ">");
  }

  lemma StyleFromIs(t: string, x: string, p: nat, o: Opener)
    requires p <= |t| && StyleAt(t[p..] + x) == Some(o)
    ensures StyleFrom(t + x, p) == Some(Opener("", o.style, p + o.length))
  {
    hide StyleAt;
    assert (t + x)[p..] == t[p..] + x;
  }

  lemma BracketFree(inner: string)
    requires AllChars(inner, IsNoBracket)
    ensures AllChars("<" + inner, IsNotTagEnd)
    ensures Angled(inner) == "<" + inner + ">" && EndsTag(Angled(inner))
  {
    assert Angled(inner)[..|inner| + 1] == "<" + inner;
  }

  lemma HiderHides()
    ensures IsItem(Element(HIDER)) && HidesHere(Angled(HIDER)) && EndsTag(Angled(HIDER))
  {
    HiderShape();
    HiderTail();
    HiderStyle();
    HiderQuote();
    HiderOpens();
    BracketFree(HIDER);
    hide HIDER, HIDER_STYLE, OpenerAt, TagQuote, StyleQuote, IsHidden, AllChars, StyleCloses, EndsTag;
    DisplayNone(OpenerAt("<" + HIDER + ">").value);
  }

  /** A tag, a character and a hiding tag. */
  function Breaking(inner: string, q: char): seq<Item> {
    [Element(inner), Text(q), Element(HIDER)]
  }

  lemma ThreeItems(a: Item, b: Item, c: Item)
    ensures ItemsText([a, b, c]) == ItemText(a) + (ItemText(b) + ItemText(c))
  {
    hide ItemText;
    var items := [a, b, c];
    assert items[1..] == [b, c] && [b, c][1..] == [c] && [c][1..] == [];
    assert ItemsText([c]) == ItemText(c) + ItemsText([]);
    NoText();
    assert ItemText(c) + "" == ItemText(c);
  }

  lemma BreakingText(inner: string, q: char)
    ensures ItemsText(Breaking(inner, q)) == ("<" + inner) + (">" + ([q] + Angled(HIDER)))
  {
    ThreeItems(Element(inner), Text(q), Element(HIDER));
    hide HIDER, ItemsText;
    Regrouped("<" + inner, [q] + Angled(HIDER));
  }

  lemma Regrouped(t: string, tail: string)
    ensures t + ">" + tail == t + (">" + tail)
  {
  }

  /** The text a leaking tag is followed by is kept: it is in no span. */
  lemma BreakingKept(inner: string, q: char)
    ensures |ItemsText(KeptFrom(Breaking(inner, q), 0))| > 0
  {
    var items := Breaking(inner, q);
    KeptCons(items, 0);
    KeptCons(items, 1);
    HiderCloses();
    QuoteKept(items);
    hide IsRemoved, KeptFrom, HIDER, ItemText;
    var kept := KeptFrom(items, 1);
    assert kept == [Text(q)] + KeptFrom(items, 2);
    ItemsTextCons(kept);
    if !IsRemoved(items, 0) {
      var all := KeptFrom(items, 0);
      assert all == [items[0]] + kept;
      ItemsTextCons(all);
    }
  }

  lemma KeptCons(items: seq<Item>, i: nat)
    requires i < |items|
    ensures KeptFrom(items, i) == (if IsRemoved(items, i) then [] else [items[i]]) + KeptFrom(items, i + 1)
  {
    hide IsRemoved;
  }

  lemma HiderCloses()
    ensures forall tag: string :: !Closes(Element(HIDER), tag)
  {
    assert Angled(HIDER)[1] == 'b';
    hide Run, IndexOf, Fold, HIDER, Angled;
  }

  /** A character between two tags that do not close is in no span. */
  lemma QuoteKept(items: seq<Item>)
    requires |items| == 3 && items[0].Element? && items[1].Text?
    requires forall tag: string :: !Closes(items[2], tag)
    ensures !IsRemoved(items, 1)
  {
    if IsHiding(items[0]) {
      var tag := ItemOpener(items[0]).value.tag;
      NoCloser(items, tag);
      hide Closes, Opens, IsHiding, ItemsEnd, ItemOpener, Angled;
      assert SpanEnd(items, 0) == 1;
    }
  }

  lemma {:induction false} NoCloser(items: seq<Item>, tag: string)
    requires |items| == 3 && items[1].Text? && !Closes(items[2], tag)
    ensures ItemsEnd(items[1..], tag, 1).None?
  {
    hide NamedTag, Angled;
    assert items[1..][0] == items[1] && items[1..][1..] == items[2..];
    assert items[2..][0] == items[2] && items[2..][1..] == [];
  }

  lemma {:induction false} WholeCopied(s: string)
    requires OpenerAt(s).Some? && OpenerAt(s).value.length == |s|
    ensures WithoutHidden(s) == if IsHidden(OpenerAt(s).value) then "" else s
  {
    hide WithoutHidden, OpenerAt, IsHidden, HiddenLength;
    var o := OpenerAt(s).value;
    WithoutHiddenStep(s);
    assert |s| <= HiddenLength(s, o) <= |s|;
    WithoutHiddenStep("");
    assert s[|s|..] == "" && s[..|s|] == s && s + "" == s;
  }

  lemma {:induction false} NotCleared(items: seq<Item>, i: nat)
    requires i <= |ItemsText(items)| && HidesHere(ItemsText(items)[i..])
    requires |ItemsText(KeptFrom(items, 0))| > 0
    requires WithoutHidden(ItemsText(items)) == "" || WithoutHidden(ItemsText(items)) == ItemsText(items)
    ensures !IsCleared(items)
  {
    hide HidesHere, KeptFrom, ItemsText, WithoutHidden;
  }

  lemma LeakTail(t: string, q: char, m: string)
    ensures (t + (">" + ([q] + m)))[|t| + 2..] == m
  {
  }

  /** After a tag that leaks, its quote and a hiding tag break the removal: either
      all of it goes, the quote too, or the hiding tag stays. */
  lemma LeakingTagFails(inner: string)
    requires AllChars(inner, IsNoBracket) && !ClosesLast("<" + inner)
    ensures var items := Breaking(inner, OpenQuote("<" + inner));
      var s := ItemsText(items);
      && AreItems(items[1..]) && !IsCleared(items)
      && |inner| + 3 <= |s| && HidesHere(s[|inner| + 3..])
      && (WithoutHidden(s) == "" || WithoutHidden(s) == s)
  {
    hide OpenQuote, HIDER, ClosesLast, ItemsText, KeptFrom, HidesHere, WithoutHidden, IsCleared, Breaking;
    hide AllChars, IsItem, AreItems, IsNoBracket;
    var q := OpenQuote("<" + inner);
    OpenQuoteIs("<" + inner);
    HiderHides();
    BreakingLeaks(inner);
    BreakingKept(inner, q);
    NotCleared(Breaking(inner, q), |inner| + 3);
    BreakingRest(inner, q);
  }

  lemma BreakingLeaks(inner: string)
    requires AllChars(inner, IsNoBracket) && !ClosesLast("<" + inner)
    ensures var s := ItemsText(Breaking(inner, OpenQuote("<" + inner)));
      && |inner| + 3 <= |s| && HidesHere(s[|inner| + 3..])
      && (WithoutHidden(s) == "" || WithoutHidden(s) == s)
  {
    var t, m := "<" + inner, Angled(HIDER);
    HiderHides();
    BracketFree(inner);
    hide OpenerAt, IsHidden, HIDER, ClosesLast, OpenQuote, ItemsText, HidesHere, WithoutHidden, Angled, AllChars;
    var s := ItemsText(Breaking(inner, OpenQuote(t)));
    BreakingText(inner, OpenQuote(t));
    LeakTail(t, OpenQuote(t), m);
    OpenerLeaks(t, m);
    WholeCopied(s);
  }

  lemma BreakingRest(inner: string, q: char)
    requires IsNoBracket(q) && IsItem(Element(HIDER))
    ensures AreItems(Breaking(inner, q)[1..])
    ensures Breaking(inner, q) == [Element(inner)] + Breaking(inner, q)[1..]
  {
    hide HIDER, ClosesLast;
    assert Breaking(inner, q)[1..] == [Text(q), Element(HIDER)];
  }

  lemma OpenQuoteIs(t: string)
    requires !ClosesLast(t)
    ensures IsNoBracket(OpenQuote(t))
  {
    QuoteIs(t[TagQuote(t).value..]);
    hide StyleQuote, TagQuote;
  }

  /** Hidden elements are removed cleanly after a tag, whatever items follow it,
      exactly when its last quoted style closes in it. */
  lemma ClearedIff(inner: string)
    requires AllChars(inner, IsNoBracket)
    ensures ClosesLast("<" + inner) <==> forall rest: seq<Item> | AreItems(rest) :: IsCleared([Element(inner)] + rest)
  {
    hide IsCleared, ClosesLast, HIDER;
    if ClosesLast("<" + inner) {
      forall rest: seq<Item> | AreItems(rest) ensures IsCleared([Element(inner)] + rest) {
        ItemsWith(inner, rest);
        HiddenSpansRemoved([Element(inner)] + rest);
      }
    } else {
      var q := OpenQuote("<" + inner);
      LeakingTagFails(inner);
      OpenQuoteIs("<" + inner);
      HiderHides();
      BreakingRest(inner, q);
      hide AreItems, Breaking;
      assert !IsCleared([Element(inner)] + Breaking(inner, q)[1..]);
    }
  }

  lemma ItemsWith(inner: string, rest: seq<Item>)
    requires IsItem(Element(inner)) && AreItems(rest)
    ensures AreItems([Element(inner)] + rest)
  {
    hide IsItem;
    var items := [Element(inner)] + rest;
    forall i | 0 <= i < |items| ensures IsItem(items[i]) {
      assert i > 0 ==> items[i] == rest[i - 1];
    }
  }

  /** There are such tags: `<a style=">`. */
  lemma OpenStyleLeaks()
    ensures AllChars("a style=\"", IsNoBracket) && !ClosesLast("<" + "a style=\"")
  {
    OpenStyleShape();
    OpenStyleQuote();
    assert IsLetter('a');
    hide *;
    var t := "<" + "a style=\"";
    OnlyStyle(t);
    QuoteCloses(t, 3);
  }

  lemma QuoteCloses(t: string, p: nat)
    requires TagQuote(t) == Some(p)
    ensures p <= |t| && (ClosesLast(t) <==> StyleCloses(t[p..]))
  {
    hide TagQuote, StyleCloses;
  }

  lemma OpenStyleShape()
    ensures var t := "<" + "a style=\"";
      && AllChars("a style=\"", IsNoBracket)
      && |t| == 10 && t[0] == '<' && t[1] == 'a' && t[2] == ' ' && t[3..] == "style=\"" && t[9] == '"'
      && forall i | 3 < i < 10 :: t[i] != 's' && t[i] != 'S'
  {
  }

  lemma OpenStyleQuote()
    ensures StyleQuote("style=\"") == Some(6) && !StyleCloses("style=\"")
  {
    var u := "style=\"";
    assert u[..5] == "style" && Fold("style") == "style";
    RunIs(u[5..], IsSpace, 0);
    RunIs(u[6..], IsSpace, 0);
    assert u[7..] == "";
  }
}
