/** Which elements `dropHiddenElements` of `shared/quoted-text.ts` removes, and up
    to where: as laws about HTML texts. */
module HiddenStyles {
  import opened Strings
  import opened Sanitizer
  import opened QuotedText
  import opened HiddenElements

  // ---- Styles that hide

  /** The lower-cased style says `display`, a colon and `none`, white space aside
      around the colon. */
  ghost predicate Hides(style: string) {
    exists pre: string, u: string, v: string, post: string ::
      AllChars(u, IsSpace) && AllChars(v, IsSpace)
      && Lower(style) == pre + "display" + u + ":" + v + "none" + post
  }

  predicate DisplayNone(s: string, u: string, v: string) {
    AllChars(u, IsSpace) && AllChars(v, IsSpace) && StartsWith(s, "display" + u + ":" + v + "none")
  }

  lemma Past(a: string, r: string)
    ensures (a + r)[..|a|] == a && (a + r)[|a|..] == r && StartsWith(a + r, a)
  {
  }

  lemma Rejoined(s: string, n: nat, m: nat)
    requires n + m <= |s|
    ensures s[n..] == s[n..n + m] + s[n + m..] && s[n..][m..] == s[n + m..] && s[n..][..m] == s[n..n + m]
  {
  }

  lemma {:induction false} RunIsBlank(s: string)
    ensures AllChars(s[..Run(s, IsSpace)], IsSpace)
  {
  }

  /** `display`, white space up to `a`, a colon, `j` characters of white space, and
      `none`. */
  predicate HasParts(s: string, a: nat, j: nat) {
    && 7 <= a < |s| && a + 1 + j <= |s| && StartsWith(s, "display") && s[a] == ':' && StartsWith(s[a + 1 + j..], "none")
    && Run(s[7..], IsSpace) == a - 7 && Run(s[a + 1..], IsSpace) == j
  }

  lemma HidesAtParts(s: string)
    ensures HidesAt(s) <==> exists a: nat, j: nat :: HasParts(s, a, j)
  {
    hide Run, IsSpace;
    if HidesAt(s) {
      var a := 7 + Run(s[7..], IsSpace);
      assert HasParts(s, a, Run(s[a + 1..], IsSpace));
    }
  }

  lemma HidesAtIs(s: string)
    requires HidesAt(s)
    ensures exists u: string, v: string :: DisplayNone(s, u, v)
  {
    HidesAtParts(s);
    hide HidesAt;
    var a: nat, j: nat :| HasParts(s, a, j);
    PartsJoined(s, a, j);
  }

  lemma Cuts(s: string, i: nat, j: nat, k: nat, m: nat, n: nat)
    requires i <= j <= k <= m <= n <= |s|
    ensures s[..n] == s[..i] + s[i..j] + s[j..k] + s[k..m] + s[m..n]
  {
  }

  lemma BlankPart(s: string, i: nat, n: nat)
    requires i <= |s| && Run(s[i..], IsSpace) == n
    ensures i + n <= |s| && AllChars(s[i..i + n], IsSpace)
  {
    RunIsBlank(s[i..]);
    Rejoined(s, i, n);
    hide Run, AllChars;
  }

  lemma BlankParts(s: string, a: nat, j: nat)
    requires HasParts(s, a, j)
    ensures AllChars(s[7..a], IsSpace) && AllChars(s[a + 1..a + 1 + j], IsSpace)
  {
    hide Run, AllChars, IsSpace;
    BlankPart(s, 7, a - 7);
    BlankPart(s, a + 1, j);
  }

  lemma WordParts(s: string, a: nat, j: nat)
    requires HasParts(s, a, j)
    ensures a + 5 + j <= |s| && s[..7] == "display" && s[a..a + 1] == ":" && s[a + 1 + j..a + 5 + j] == "none"
  {
    hide Run;
    Rejoined(s, a + 1 + j, 4);
  }

  lemma DisplayIs(s: string, n: nat, u: string, v: string)
    requires n <= |s| && s[..n] == "display" + u + ":" + v + "none" && AllChars(u, IsSpace) && AllChars(v, IsSpace)
    ensures DisplayNone(s, u, v)
  {
    hide AllChars, IsSpace;
  }

  lemma PartsJoined(s: string, a: nat, j: nat)
    requires HasParts(s, a, j)
    ensures DisplayNone(s, s[7..a], s[a + 1..a + 1 + j])
  {
    BlankParts(s, a, j);
    WordParts(s, a, j);
    hide *;
    Cuts(s, 7, a, a + 1, a + 1 + j, a + 5 + j);
    DisplayIs(s, a + 5 + j, s[7..a], s[a + 1..a + 1 + j]);
  }

  lemma {:induction false} BlankRun(u: string, c: char, r: string)
    requires AllChars(u, IsSpace) && !IsSpace(c)
    ensures Run(u + ([c] + r), IsSpace) == |u|
  {
    RunIs(u + ([c] + r), IsSpace, |u|);
  }

  lemma DisplayTail(s: string, u: string, v: string) returns (post: string)
    requires DisplayNone(s, u, v)
    ensures s == "display" + (u + (":" + (v + ("none" + post))))
  {
    var w := "display" + u + ":" + v + "none";
    post := s[|w|..];
    assert s == w + post;
  }

  lemma ColonNext(s: string, a: nat, mid: string)
    requires a <= |s| && s[a..] == [':'] + mid
    ensures a < |s| && s[a] == ':' && s[a + 1..] == mid
  {
    assert s[a..][1..] == mid;
  }

  lemma BlankThen(s: string, i: nat, u: string, c: char, r: string)
    requires i <= |s| && s[i..] == u + ([c] + r) && AllChars(u, IsSpace) && !IsSpace(c)
    ensures Run(s[i..], IsSpace) == |u| && i + |u| < |s| && s[i + |u|] == c && s[i + |u|..] == [c] + r
  {
    BlankRun(u, c, r);
    hide Run, AllChars, IsSpace;
    Past(u, [c] + r);
    Rejoined(s, i, |u|);
  }

  /** After `display`: white space, a colon, white space and `none`. */
  lemma ColonNone(s: string, u: string, v: string, post: string)
    requires |s| >= 7 && StartsWith(s, "display") && s[7..] == u + ([':'] + (v + ("none" + post)))
    requires AllChars(u, IsSpace) && AllChars(v, IsSpace)
    ensures HidesAt(s)
  {
    assert !IsSpace(':') && !IsSpace('n');
    hide *;
    var last := "none" + post;
    var a := 7 + |u|;
    BlankThen(s, 7, u, ':', v + last);
    ColonNext(s, a, v + last);
    NoneNext(post);
    BlankThen(s, a + 1, v, 'n', "one" + post);
    PartsFound(s, a, |v|);
  }

  lemma NoneNext(post: string)
    ensures "none" + post == ['n'] + ("one" + post) && StartsWith(['n'] + ("one" + post), "none")
  {
    assert "none" + post == ['n'] + ("one" + post);
    assert ("none" + post)[..4] == "none";
  }

  lemma IsHidesAt(s: string, u: string, v: string)
    requires DisplayNone(s, u, v)
    ensures HidesAt(s)
  {
    var post := DisplayTail(s, u, v);
    hide HidesAt, AllChars, IsSpace, StartsWith;
    Past("display", u + ([':'] + (v + ("none" + post))));
    ColonNone(s, u, v, post);
  }

  lemma PartsFound(s: string, a: nat, j: nat)
    requires 7 <= a < |s| && a + 1 + j <= |s| && StartsWith(s, "display") && s[a] == ':'
    requires StartsWith(s[a + 1 + j..], "none") && Run(s[7..], IsSpace) == a - 7 && Run(s[a + 1..], IsSpace) == j
    ensures HidesAt(s)
  {
    HidesAtParts(s);
    hide HidesAt, Run, IsSpace, StartsWith;
    assert HasParts(s, a, j);
  }

  /** `HidesAt` at position `i` of `s`. */
  lemma HidesAtIff(s: string, i: nat)
    requires i <= |s|
    ensures HidesAt(s[i..]) <==> exists u: string, v: string :: DisplayNone(s[i..], u, v)
  {
    hide HidesAt, DisplayNone;
    if HidesAt(s[i..]) {
      HidesAtIs(s[i..]);
    }
    if u: string, v: string :| DisplayNone(s[i..], u, v) {
      IsHidesAt(s[i..], u, v);
    }
  }

  /** A style hides exactly when it reads so. The quotes around it make no
      difference. */
  lemma HiddenIff(q: char, style: string, tag: string, length: nat)
    requires q == '"' || q == '\''
    ensures IsHidden(Opener(tag, [q] + style + [q], length)) <==> Hides(style)
  {
    hide HidesAt, DisplayNone;
    var o := Opener(tag, [q] + style + [q], length);
    var l, w := Lower(style), Lower(o.style);
    QuotesStay(q, style);
    if IsHidden(o) {
      var i :| 0 <= i <= |w| && HidesAt(w[i..]);
      HidesAtIff(w, i);
      var u: string, v: string :| DisplayNone(w[i..], u, v);
      DisplayInside(q, l, i, u, v);
      HidesText(style, i - 1, u, v);
    }
    if Hides(style) {
      var i, u, v := HidesFrom(style);
      DisplayOutside(q, l, i, u, v);
      HidesAtIff(w, i + 1);
    }
  }

  lemma QuotesStay(q: char, style: string)
    requires q == '"' || q == '\''
    ensures Lower([q] + style + [q]) == [q] + Lower(style) + [q]
  {
  }

  /** The match is inside the quotes: none of its characters is one. */
  lemma DisplayInside(q: char, l: string, i: nat, u: string, v: string)
    requires q == '"' || q == '\''
    requires i <= |l| + 2 && DisplayNone(([q] + l + [q])[i..], u, v)
    ensures 0 < i <= |l| + 1 && DisplayNone(l[i - 1..], u, v)
  {
    var w, m := [q] + l + [q], "display" + u + ":" + v + "none";
    NoQuoteIn(u, v, q);
    hide AllChars, IsSpace;
    assert w[i..][..|m|] == m;
    assert forall k | i <= k < i + |m| :: w[k] == m[k - i] && w[k] != q;
    assert w[0] == q && w[|l| + 1] == q;
    assert l[i - 1..][..|m|] == w[i..][..|m|];
  }

  lemma NoQuoteIn(u: string, v: string, q: char)
    requires q == '"' || q == '\''
    requires AllChars(u, IsSpace) && AllChars(v, IsSpace)
    ensures q !in "display" + u + ":" + v + "none"
  {
    assert q !in "display" && q !in u && q !in ":" && q !in v && q !in "none";
  }

  lemma DisplayOutside(q: char, l: string, i: nat, u: string, v: string)
    requires i <= |l| && DisplayNone(l[i..], u, v)
    ensures i + 1 <= |l| + 2 && DisplayNone(([q] + l + [q])[i + 1..], u, v)
  {
    hide AllChars, IsSpace;
    var w, m := [q] + l + [q], "display" + u + ":" + v + "none";
    assert w[i + 1..] == l[i..] + [q];
    assert w[i + 1..][..|m|] == l[i..][..|m|];
  }

  lemma HidesText(style: string, i: nat, u: string, v: string)
    requires i <= |style| && DisplayNone(Lower(style)[i..], u, v)
    ensures Hides(style)
  {
    hide AllChars, IsSpace, Lower;
    var l, m := Lower(style), "display" + u + ":" + v + "none";
    LowerLength(style);
    var pre, post := l[..i], l[i..][|m|..];
    assert l == pre + l[i..] && l[i..] == m + post;
    assert l == pre + "display" + u + ":" + v + "none" + post;
  }

  lemma HidesFrom(style: string) returns (i: nat, u: string, v: string)
    requires Hides(style)
    ensures i <= |style| && DisplayNone(Lower(style)[i..], u, v)
  {
    hide AllChars, IsSpace, Lower;
    var pre: string, u0: string, v0: string, post: string :| AllChars(u0, IsSpace) && AllChars(v0, IsSpace)
      && Lower(style) == pre + "display" + u0 + ":" + v0 + "none" + post;
    i, u, v := |pre|, u0, v0;
    LowerLength(style);
    assert Lower(style) == pre + ("display" + u + ":" + v + "none" + post);
    Past(pre, "display" + u + ":" + v + "none" + post);
    Past("display" + u + ":" + v + "none", post);
  }

  lemma LowerLength(s: string)
    ensures |Lower(s)| == |s|
  {
  }

  // ---- Tags with a style

  /** An opening tag, cut at its last quoted style. */
  datatype Styled = Styled(
    name: string, before: string, word: string, u: string, v: string, quote: char, style: string, after: string)

  /** From the style on, up to the tag's `>`. */
  function StylePart(t: Styled): string {
    t.word + t.u + "=" + t.v + [t.quote] + t.style + [t.quote] + t.after
  }

  /** Where its quote opens. */
  function QuoteStart(t: Styled): nat {
    6 + |t.u| + |t.v|
  }

  /** What stands between the tag's brackets. */
  function InnerOf(t: Styled): string {
    t.name + t.before + StylePart(t)
  }

  function TextOf(t: Styled): string {
    "<" + InnerOf(t) + ">"
  }

  /** `style\s*=\s*` and a quote, as far as position `b` of `s`. */
  predicate IsStyleQuote(s: string, e: nat, b: nat) {
    && 5 <= e < b < |s| && Fold(s[..5]) == "style" && AllChars(s[5..e], IsSpace) && s[e] == '='
    && AllChars(s[e + 1..b], IsSpace) && (s[b] == '"' || s[b] == '\'')
  }

  /** A quoted style starts somewhere in `s` after its first character, at a word's
      start. */
  predicate HasStyleQuote(s: string) {
    exists i, e, b | 0 < i <= |s| && 0 <= e <= |s| && 0 <= b <= |s| ::
      !IsWordChar(s[i - 1]) && IsStyleQuote(s[i..], e, b)
  }

  predicate IsPlainName(name: string) {
    && name != "" && ('a' <= name[0] <= 'z' || 'A' <= name[0] <= 'Z')
    && forall i | 0 <= i < |name| :: 'a' <= name[i] <= 'z' || 'A' <= name[i] <= 'Z' || '0' <= name[i] <= '9'
  }

  predicate IsStyled(t: Styled) {
    && IsPlainName(t.name) && AllChars(InnerOf(t), IsNoBracket)
    && t.before != "" && !IsWordChar(t.before[0]) && !IsWordChar(t.before[|t.before| - 1])
    && Fold(t.word) == "style" && AllChars(t.u, IsSpace) && AllChars(t.v, IsSpace)
    && (t.quote == '"' || t.quote == '\'') && t.quote !in t.style && !HasStyleQuote(StylePart(t))
  }

  // ---- The style found is the tag's

  lemma StyleQuoteIff(s: string, b: nat)
    ensures StyleQuote(s) == Some(b) ==> exists e: nat :: IsStyleQuote(s, e, b)
  {
    if StyleQuote(s) == Some(b) {
      var e := StyleQuoteSpan(s, b);
      hide *;
    }
  }

  lemma StyleQuoteAt(s: string, b: nat) returns (e: nat)
    requires StyleQuote(s) == Some(b)
    ensures 5 <= e < b < |s| && Fold(s[..5]) == "style" && s[e] == '=' && (s[b] == '"' || s[b] == '\'')
    ensures e == AfterBlank(s, 5) && b == AfterBlank(s, e + 1)
  {
    hide Run, IsSpace, Fold;
    e := AfterBlank(s, 5);
  }

  lemma BlankUpTo(s: string, i: nat)
    requires i <= |s|
    ensures AllChars(s[i..AfterBlank(s, i)], IsSpace)
  {
    BlankPart(s, i, AfterBlank(s, i) - i);
    hide AllChars, Run;
  }

  lemma StyleQuoteSpan(s: string, b: nat) returns (e: nat)
    requires StyleQuote(s) == Some(b)
    ensures IsStyleQuote(s, e, b)
  {
    hide AfterBlank, AllChars, IsSpace, Fold, StyleQuote;
    e := StyleQuoteAt(s, b);
    BlankUpTo(s, 5);
    BlankUpTo(s, e + 1);
  }

  lemma BlankAt(s: string, i: nat, n: nat)
    requires i + n < |s| && AllChars(s[i..i + n], IsSpace) && !IsSpace(s[i + n])
    ensures AfterBlank(s, i) == i + n
  {
    assert forall k | 0 <= k < n :: s[i..][k] == s[i..i + n][k];
    RunIs(s[i..], IsSpace, n);
  }

  lemma QuoteIsNoSpace(c: char)
    requires c == '"' || c == '\'' || c == '='
    ensures !IsSpace(c)
  {
  }

  lemma StyleQuoteFound(s: string, e: nat, b: nat)
    requires IsStyleQuote(s, e, b)
    ensures StyleQuote(s) == Some(b)
  {
    QuoteIsNoSpace(s[e]);
    QuoteIsNoSpace(s[b]);
    hide AllChars, IsSpace, AfterBlank, Fold;
    BlankAt(s, 5, e - 5);
    BlankAt(s, e + 1, b - e - 1);
    hide IsStyleQuote;
    assert StartsWithFold(s, "style") && IsAt(s, e, '=');
  }

  lemma StylePartQuote(t: Styled)
    requires IsStyled(t)
    ensures var s, e, b := StylePart(t), 5 + |t.u|, QuoteStart(t);
      IsStyleQuote(s, e, b) && s[b] == t.quote && s[b + 1..] == t.style + [t.quote] + t.after
      && s[b..b + |t.style| + 2] == [t.quote] + t.style + [t.quote]
  {
    var s, e, b := StylePart(t), 5 + |t.u|, 6 + |t.u| + |t.v|;
    WordLength(t.word);
    hide Fold, AllChars, IsSpace, HasStyleQuote, IsNoBracket, IsPlainName, IsWordChar;
    assert s[..5] == t.word && s[5..e] == t.u && s[e + 1..b] == t.v;
  }

  lemma WordLength(word: string)
    requires Fold(word) == "style"
    ensures |word| == 5
  {
    assert |Fold(word)| == |word|;
  }

  lemma {:induction false} LastQuoteIs(t: string, k: nat, q: nat, p: nat)
    requires 0 < k <= p <= k + q <= |t|
    requires !IsWordChar(t[p - 1]) && StyleQuote(t[p..]).Some?
    requires forall i | p < i <= k + q :: IsWordChar(t[i - 1]) || StyleQuote(t[i..]).None?
    ensures LastQuote(t, k, q) == Some(p)
    decreases q
  {
    hide StyleQuote, LastQuote, IsWordChar;
    LastQuoteStep(t, k, q);
    if p < k + q {
      LastQuoteIs(t, k, q - 1, p);
    }
  }

  /** Where the pieces of a tag are in its text. */
  lemma StyledParts(t: Styled)
    ensures var s := "<" + InnerOf(t);
      && s[0] == '<' && |s| == 1 + |t.name| + |t.before| + |StylePart(t)|
      && s[1..] == t.name + (t.before + StylePart(t)) && s[1..1 + |t.name|] == t.name
  {
    hide StylePart;
    assert "<" + InnerOf(t) == "<" + t.name + t.before + StylePart(t);
  }

  lemma StyledCut(t: Styled)
    requires t.before != ""
    ensures var s, p := "<" + InnerOf(t), 1 + |t.name| + |t.before|;
      p <= |s| && s[p..] == StylePart(t) && s[p - 1] == t.before[|t.before| - 1]
  {
    hide StylePart;
    assert "<" + InnerOf(t) == ("<" + t.name + t.before) + StylePart(t);
  }

  lemma StyledFrom(t: Styled, i: nat)
    requires 0 < i <= |StylePart(t)|
    ensures var s, p := "<" + InnerOf(t), 1 + |t.name| + |t.before|;
      p + i <= |s| && s[p + i..] == StylePart(t)[i..] && s[p + i - 1] == StylePart(t)[i - 1]
  {
    hide StylePart;
    assert "<" + InnerOf(t) == ("<" + t.name + t.before) + StylePart(t);
  }

  lemma {:induction false} NameRuns(name: string, r: string)
    requires IsPlainName(name) && r != "" && !IsWordChar(r[0])
    ensures Run(name + r, IsAlnum) == |name| && IsLetter(name[0])
  {
    RunIs(name + r, IsAlnum, |name|);
  }

  lemma NoLaterQuote(t: Styled, i: nat)
    requires !HasStyleQuote(StylePart(t)) && 0 < i <= |StylePart(t)|
    ensures IsWordChar(StylePart(t)[i - 1]) || StyleQuote(StylePart(t)[i..]).None?
  {
    hide IsWordChar, StylePart, IsStyleQuote;
    var s := StylePart(t);
    if !IsWordChar(s[i - 1]) && StyleQuote(s[i..]).Some? {
      var b := StyleQuote(s[i..]).value;
      StyleQuoteIff(s[i..], b);
      var e: nat :| IsStyleQuote(s[i..], e, b);
      QuoteWithin(s[i..], e, b);
    }
  }

  lemma QuoteWithin(s: string, e: nat, b: nat)
    requires IsStyleQuote(s, e, b)
    ensures e <= |s| && b <= |s|
  {
  }

  lemma StyledNoLater(t: Styled, i: nat)
    requires IsStyled(t) && 1 + |t.name| + |t.before| < i <= |InnerOf(t)| + 1
    ensures var s := "<" + InnerOf(t); IsWordChar(s[i - 1]) || StyleQuote(s[i..]).None?
  {
    hide *;
    StyledIs(t);
    StyledParts(t);
    var n := i - (1 + |t.name| + |t.before|);
    StyledFrom(t, n);
    NoLaterQuote(t, n);
  }

  lemma StyleQuoteOf(t: Styled)
    requires IsStyled(t)
    ensures StyleQuote(StylePart(t)) == Some(QuoteStart(t))
  {
    hide *;
    StylePartQuote(t);
    StyleQuoteFound(StylePart(t), 5 + |t.u|, QuoteStart(t));
  }

  lemma StyledHere(t: Styled)
    requires IsStyled(t)
    ensures var s, p := "<" + InnerOf(t), 1 + |t.name| + |t.before|;
      !IsWordChar(s[p - 1]) && StyleQuote(s[p..]) == Some(QuoteStart(t))
  {
    hide *;
    StyledIs(t);
    StyledCut(t);
    StyleQuoteOf(t);
  }

  lemma StyledName(t: Styled)
    requires IsStyled(t)
    ensures var s, k := "<" + InnerOf(t), 1 + |t.name|;
      k < |s| && k == 1 + Run(s[1..], IsAlnum) && OpensTag(s, k) && s[1..k] == t.name
  {
    hide *;
    StyledIs(t);
    StyledParts(t);
    StyledTail(t);
    NameRuns(t.name, t.before + StylePart(t));
    NameOpens("<" + InnerOf(t), 1 + |t.name|);
  }

  lemma StyledTail(t: Styled)
    requires t.before != ""
    ensures t.before + StylePart(t) != "" && (t.before + StylePart(t))[0] == t.before[0]
  {
  }

  lemma StyledQuote(t: Styled)
    requires IsStyled(t)
    ensures TagQuote("<" + InnerOf(t)) == Some(1 + |t.name| + |t.before|)
  {
    hide *;
    var s, k, p := "<" + InnerOf(t), 1 + |t.name|, 1 + |t.name| + |t.before|;
    StyledName(t);
    StyledHere(t);
    StyledParts(t);
    forall i | p < i <= |s| ensures IsWordChar(s[i - 1]) || StyleQuote(s[i..]).None? {
      StyledNoLater(t, i);
    }
    LastQuoteIs(s, k, |s| - k, p);
    TagQuoteIs(s, k);
  }

  lemma NameOpens(s: string, k: nat)
    requires |s| >= 2 && s[0] == '<' && IsLetter(s[1]) && k < |s| && !IsWordChar(s[k])
    ensures OpensTag(s, k)
  {
  }

  lemma StyledIs(t: Styled)
    requires IsStyled(t)
    ensures IsPlainName(t.name) && t.before != "" && !IsWordChar(t.before[0]) && !IsWordChar(t.before[|t.before| - 1])
    ensures !HasStyleQuote(StylePart(t)) && t.quote !in t.style && (t.quote == '"' || t.quote == '\'')
    ensures AllChars(InnerOf(t), IsNoBracket)
    ensures ("<" + InnerOf(t))[1] == t.name[0] && IsLetter(t.name[0])
  {
  }

  /** The tag without its `>`. */
  function HeadOf(t: Styled): string {
    "<" + InnerOf(t)
  }

  function StyleStart(t: Styled): nat {
    1 + |t.name| + |t.before|
  }

  /** The style with its quotes. */
  function InQuotes(t: Styled): string {
    [t.quote] + t.style + [t.quote]
  }

  lemma {:induction false} QuoteEnds(style: string, q: char, after: string)
    requires q !in style
    ensures IndexOf(style + [q] + after, q) == Some(|style|)
  {
    var s := style + [q] + after;
    assert s[|style|] == q && s[..|style|] == style;
    IndexOfIs(s, q, |style|);
  }

  lemma QuoteIndex(t: Styled)
    requires IsStyled(t)
    ensures var s, b := StylePart(t), QuoteStart(t);
      b < |s| && IndexOf(s[b + 1..], s[b]) == Some(|t.style|) && s[b..b + |t.style| + 2] == InQuotes(t)
  {
    StyledIs(t);
    StylePartQuote(t);
    hide IsStyled, StylePart, IndexOf;
    QuoteEnds(t.style, t.quote, t.after);
  }

  lemma ClosesHere(s: string, b: nat)
    requires StyleQuote(s) == Some(b) && b < |s| && IndexOf(s[b + 1..], s[b]).Some?
    ensures StyleCloses(s)
  {
    hide StyleQuote;
    var k := IndexOf(s[b + 1..], s[b]).value;
    assert s[b + 1..][k] == s[b];
  }

  lemma PartFree(t: Styled)
    requires AllChars(InnerOf(t), IsNoBracket)
    ensures AllChars(StylePart(t), IsNotTagEnd) && AllChars(HeadOf(t), IsNotTagEnd) && HeadOf(t) != ""
  {
    hide StylePart;
    var n := |t.name| + |t.before|;
    assert forall i | 0 <= i < |StylePart(t)| :: StylePart(t)[i] == InnerOf(t)[n + i];
  }

  lemma StyleAtPart(t: Styled, x: string)
    requires IsStyled(t) && x != "" && x[0] == '>'
    ensures StyleAt(StylePart(t) + x) == Some(Opener("", InQuotes(t), |StylePart(t)| + 1))
  {
    hide *;
    StyledIs(t);
    StyleQuoteOf(t);
    PartFree(t);
    QuoteIndex(t);
    ClosesHere(StylePart(t), QuoteStart(t));
    StyleAtEnds(StylePart(t), x);
  }

  lemma HeadCut(t: Styled)
    requires t.before != ""
    ensures StyleStart(t) <= |HeadOf(t)| && HeadOf(t)[StyleStart(t)..] == StylePart(t)
    ensures |HeadOf(t)| == StyleStart(t) + |StylePart(t)|
  {
    hide StylePart, InnerOf;
    StyledCut(t);
    StyledParts(t);
  }

  lemma StyledStyle(t: Styled, y: string)
    requires IsStyled(t) && y != "" && y[0] == '>'
    ensures StyleStart(t) <= |HeadOf(t)|
    ensures StyleFrom(HeadOf(t) + y, StyleStart(t)) == Some(Opener("", InQuotes(t), |HeadOf(t)| + 1))
  {
    hide *;
    StyledIs(t);
    HeadCut(t);
    StyleAtPart(t, y);
    StyleFromPart(HeadOf(t), StyleStart(t), StylePart(t), y);
  }

  lemma HeadName(t: Styled)
    requires IsStyled(t)
    ensures TagName(HeadOf(t)) == Fold(t.name)
  {
    hide IsStyled, TagName, InnerOf, Fold, Run, OpensTag;
    StyledName(t);
    TagNameIs(HeadOf(t), 1 + |t.name|);
  }

  lemma HeadQuote(t: Styled)
    requires IsStyled(t)
    ensures TagQuote(HeadOf(t)) == Some(StyleStart(t))
  {
    hide IsStyled, TagQuote, InnerOf;
    StyledQuote(t);
  }

  /** What opens at a styled tag: its name in lower case and its last style. */
  lemma StyledOpens(t: Styled, x: string)
    requires IsStyled(t)
    ensures OpenerAt(TextOf(t) + x) == Some(Opener(Fold(t.name), InQuotes(t), |TextOf(t)|))
  {
    hide *;
    StyledIs(t);
    PartFree(t);
    TextIs(t, x);
    StyledStyle(t, ">" + x);
    HeadQuote(t);
    HeadName(t);
    OpenerFollows(HeadOf(t), ">" + x);
  }

  lemma TextIs(t: Styled, x: string)
    ensures TextOf(t) + x == HeadOf(t) + (">" + x) && |TextOf(t)| == |HeadOf(t)| + 1
  {
    hide InnerOf;
  }

  lemma TagNameIs(s: string, k: nat)
    requires s != "" && k <= |s| && k == 1 + Run(s[1..], IsAlnum)
    ensures TagName(s) == Fold(s[1..k])
  {
    hide Run, Fold;
  }

  lemma StyleFromPart(s: string, p: nat, part: string, y: string)
    requires p <= |s| && s[p..] == part && StyleAt(part + y).Some?
    ensures var o := StyleAt(part + y).value; StyleFrom(s + y, p) == Some(Opener("", o.style, p + o.length))
  {
    hide StyleAt;
    assert (s + y)[p..] == part + y;
  }

  // ---- Where the element ends

  /** `inner` is an opening or a closing tag of `name`, which is in lower case. */
  predicate IsTagOf(inner: string, closing: bool, name: string) {
    && (closing <==> inner != "" && inner[0] == '/')
    && var p := if closing then 1 else 0;
       && p + |name| <= |inner| && Fold(inner[p..p + |name|]) == name
       && (p + |name| == |inner| || !IsWordChar(inner[p + |name|]))
  }

  lemma {:induction false} FoldedRun(s: string, name: string)
    requires forall i | 0 <= i < |name| :: IsWordChar(name[i])
    ensures Fold(s[..Run(s, IsWordChar)]) == name <==>
      |name| <= |s| && Fold(s[..|name|]) == name && (|name| == |s| || !IsWordChar(s[|name|]))
  {
    var n := Run(s, IsWordChar);
    if Fold(s[..n]) == name {
      assert |Fold(s[..n])| == n;
    }
    if |name| <= |s| && Fold(s[..|name|]) == name && (|name| == |s| || !IsWordChar(s[|name|])) {
      assert forall i | 0 <= i < |name| :: Fold(s[..|name|])[i] == FoldChar(s[i]);
      RunIs(s, IsWordChar, |name|);
    }
  }

  predicate IsWord(name: string) {
    forall i | 0 <= i < |name| :: IsWordChar(name[i])
  }

  lemma StartOfName(inner: string)
    ensures var t := "<" + inner;
      && NameStart(t) == (if inner != "" && inner[0] == '/' then 2 else 1)
      && NameStart(t) <= |t| && t[NameStart(t)..] == inner[NameStart(t) - 1..]
  {
  }

  lemma NameIsTag(inner: string, p: nat, name: string)
    requires IsWord(name) && p <= |inner| && (p == 1 <==> inner != "" && inner[0] == '/') && p <= 1
    ensures Fold(inner[p..][..Run(inner[p..], IsWordChar)]) == name <==> IsTagOf(inner, p == 1, name)
  {
    FoldedRun(inner[p..], name);
    hide Run, Fold, IsWordChar;
    assert p + |name| <= |inner| ==> inner[p..][..|name|] == inner[p..p + |name|];
  }

  lemma NameOfTag(inner: string, name: string)
    requires IsWord(name)
    ensures var t := "<" + inner;
      && NameStart(t) <= |t| && (NameStart(t) == 2 || NameStart(t) == 1)
      && (Fold(NameFrom(t, NameStart(t))) == name <==> IsTagOf(inner, NameStart(t) == 2, name))
      && (NameStart(t) == 2 <==> inner != "" && inner[0] == '/')
  {
    hide *;
    var t := "<" + inner;
    StartOfName(inner);
    NameFromTail(t, NameStart(t), inner[NameStart(t) - 1..]);
    NameIsTag(inner, NameStart(t) - 1, name);
  }

  lemma {:induction false} NameFromTail(t: string, p: nat, u: string)
    requires p <= |t| && t[p..] == u
    ensures NameFrom(t, p) == u[..Run(u, IsWordChar)]
  {
    hide Run;
    assert t[p..p + Run(u, IsWordChar)] == u[..Run(u, IsWordChar)];
  }

  lemma OneMark(inner: string, closing: bool, name: string)
    requires IsTagOf(inner, closing, name)
    ensures closing <==> inner != "" && inner[0] == '/'
  {
  }

  /** The tags that open and close an element are those of its name. */
  lemma TagOfIff(inner: string, name: string)
    requires AllChars(inner, IsNoBracket) && IsWord(name)
    ensures Closes(Element(inner), name) <==> IsTagOf(inner, true, name)
    ensures Opens(Element(inner), name) <==> IsTagOf(inner, false, name)
  {
    hide Run, Fold, AllChars, IsWordChar, NamedTag, NameStart, NameFrom, IsTagOf, IsWord;
    var t := "<" + inner;
    TagBody(inner);
    assert Angled(inner) == t + ">";
    hide Angled;
    NamedEnds(t, ">", Required, {name});
    NamedEnds(t, ">", Without, {name});
    NameOfTag(inner, name);
    if IsTagOf(inner, true, name) {
      OneMark(inner, true, name);
    }
    if IsTagOf(inner, false, name) {
      OneMark(inner, false, name);
    }
  }

  /** Opening tags of `name` less closing ones. */
  function Depth(items: seq<Item>, name: string): int {
    if items == [] then 0
    else
      (if items[0].Text? then 0 else if IsTagOf(items[0].inner, true, name) then -1
       else if IsTagOf(items[0].inner, false, name) then 1 else 0) + Depth(items[1..], name)
  }

  /** Everything of `name` that is opened is closed, and nothing else is. */
  predicate IsBalanced(items: seq<Item>, name: string) {
    Depth(items, name) == 0 && forall m | 0 <= m <= |items| :: Depth(items[..m], name) >= 0
  }

  lemma {:induction false} DepthStep(it: Item, name: string, depth: nat)
    requires IsBare(it) && IsWord(name) && depth > 0
    ensures Depth([it], name) == DepthAfter(it, name, depth) - depth
  {
    assert [it][1..] == [];
    if it.Element? {
      TagOfIff(it.inner, name);
    }
    hide Closes, Opens, IsTagOf, AllChars;
  }

  lemma {:induction false} DepthCons(items: seq<Item>, name: string)
    requires items != []
    ensures Depth(items, name) == Depth([items[0]], name) + Depth(items[1..], name)
  {
    assert [items[0]][1..] == [];
    hide IsTagOf;
  }

  /** From `depth` on, the items leave the element one deep and never close it. */
  predicate LeavesOpen(items: seq<Item>, name: string, depth: int) {
    depth + Depth(items, name) == 1 && forall m | 0 <= m <= |items| :: depth + Depth(items[..m], name) > 0
  }

  lemma {:induction false} LeavesOpenCons(items: seq<Item>, name: string, depth: int)
    requires items != [] && LeavesOpen(items, name, depth)
    ensures depth + Depth([items[0]], name) > 0 && LeavesOpen(items[1..], name, depth + Depth([items[0]], name))
  {
    hide Depth;
    assert items[..1] == [items[0]];
    DepthCons(items, name);
    var d := depth + Depth([items[0]], name);
    forall m | 0 <= m <= |items[1..]| ensures d + Depth(items[1..][..m], name) > 0 {
      assert items[..m + 1][1..] == items[1..][..m] && items[..m + 1][0] == items[0];
      DepthCons(items[..m + 1], name);
    }
  }

  lemma NothingOpen(name: string, depth: int)
    requires LeavesOpen([], name, depth)
    ensures depth == 1
  {
  }

  lemma BareCons(items: seq<Item>)
    requires items != [] && AreBare(items)
    ensures IsBare(items[0]) && AreBare(items[1..])
  {
    hide IsBare;
  }

  lemma EndingTag(end: string, name: string)
    requires IsWord(name) && AllChars(end, IsNoBracket) && IsTagOf(end, true, name)
    ensures IsBare(Element(end)) && DepthAfter(Element(end), name, 1) == 0 && ItemText(Element(end)) == Angled(end)
  {
    TagOfIff(end, name);
    hide Closes, Opens, Angled, AllChars, IsTagOf, IsWord;
  }

  lemma {:induction false} EndHere(end: string, r: string, name: string)
    requires IsWord(name) && AllChars(end, IsNoBracket) && IsTagOf(end, true, name)
    ensures ElementEnd(ItemsText([]) + (Angled(end) + r), name, 1) == Some(|ItemsText([])| + |Angled(end)|)
  {
    hide *;
    EndingTag(end, name);
    EndOfItem(Element(end), r, name, 1);
    NoText();
    assert "" + (Angled(end) + r) == Angled(end) + r;
  }

  /** An element that is `depth` deep ends with the closing tag after items that
      leave it one deep. */
  lemma {:induction false} EndAfter(items: seq<Item>, end: string, r: string, name: string, depth: nat)
    requires depth > 0 && AreBare(items) && IsWord(name) && AllChars(end, IsNoBracket) && IsTagOf(end, true, name)
    requires LeavesOpen(items, name, depth)
    ensures ElementEnd(ItemsText(items) + (Angled(end) + r), name, depth) == Some(|ItemsText(items)| + |Angled(end)|)
    decreases items
  {
    hide ElementEnd, ItemText, Depth, IsBare, AreBare, IsTagOf, IsWord, DepthAfter, Angled, ItemsText, LeavesOpen, AllChars;
    if items == [] {
      NothingOpen(name, depth);
      EndHere(end, r, name);
    } else {
      var it, rest, x := items[0], items[1..], Angled(end) + r;
      BareCons(items);
      DepthStep(it, name, depth);
      LeavesOpenCons(items, name, depth);
      var d := DepthAfter(it, name, depth);
      EndAfter(rest, end, r, name, d);
      EndOfItem(it, ItemsText(rest) + x, name, depth);
      ItemsTextCons(items);
      Reassociate(ItemText(it), ItemsText(rest), x);
    }
  }

  lemma Reassociate(a: string, b: string, c: string)
    ensures a + b + c == a + (b + c)
  {
  }

  /** A closing tag of `name` starts somewhere in `s`. */
  predicate HasCloser(s: string, name: string) {
    exists i | 0 <= i <= |s| :: IsCloser(s[i..], name)
  }

  predicate IsCloser(s: string, name: string) {
    StartsWith(s, "</") && |name| + 2 <= |s| && Fold(s[2..2 + |name|]) == name
  }

  lemma {:induction false} NoCloserNoEnd(s: string, name: string, depth: nat)
    requires depth > 0 && IsWord(name) && !HasCloser(s, name)
    ensures ElementEnd(s, name, depth).None?
    decreases |s|
  {
    hide ElementEnd, NamedTag, HasCloser;
    ElementEndIs(s, name, depth);
    if s != "" {
      match NamedTag(s, Optional, {name}) {
        case None =>
          NoCloserTail(s, 1, name);
          NoCloserNoEnd(s[1..], name, depth);
        case Some(n) =>
          NamedTagBound(s, name);
          if StartsWith(s, "</") {
            NamedIsCloser(s, name);
            CloserHere(s, name);
          } else {
            NoCloserTail(s, n, name);
            NoCloserNoEnd(s[n..], name, depth + 1);
          }
      }
    }
  }

  lemma NamedTagBound(s: string, name: string)
    requires NamedTag(s, Optional, {name}).Some?
    ensures 0 < NamedTag(s, Optional, {name}).value <= |s|
  {
    hide NamedTag;
  }

  lemma ElementEndIs(s: string, name: string, depth: nat)
    requires depth > 0
    ensures ElementEnd(s, name, depth) ==
      if s == "" then None
      else match NamedTag(s, Optional, {name})
        case None => Shift(ElementEnd(s[1..], name, depth), 1)
        case Some(n) =>
          if StartsWith(s, "</") then
            if depth == 1 then Some(n) else Shift(ElementEnd(s[n..], name, depth - 1), n)
          else Shift(ElementEnd(s[n..], name, depth + 1), n)
  {
    hide NamedTag, StartsWith;
  }

  lemma NoCloserTail(s: string, n: nat, name: string)
    requires n <= |s| && !HasCloser(s, name)
    ensures !HasCloser(s[n..], name)
  {
    hide IsCloser;
    forall i | 0 <= i <= |s[n..]| ensures !IsCloser(s[n..][i..], name) {
      assert s[n..][i..] == s[n + i..];
    }
  }

  lemma CloserHere(s: string, name: string)
    requires IsCloser(s, name)
    ensures HasCloser(s, name)
  {
    hide IsCloser;
    assert s[0..] == s;
  }

  lemma NamedIsCloser(s: string, name: string)
    requires NamedTag(s, Optional, {name}).Some? && StartsWith(s, "</") && IsWord(name)
    ensures IsCloser(s, name)
  {
    assert s[..2][1] == '/';
    FoldedRun(s[2..], name);
    hide Run, Fold, IndexOf;
    assert s[2..2 + Run(s[2..], IsWordChar)] == s[2..][..Run(s[2..], IsWordChar)];
    assert |name| + 2 <= |s| ==> s[2..][..|name|] == s[2..2 + |name|];
  }

  // ---- Main results

  const VOID_NAMES: set<string> := {
    "area", "base", "br", "col", "embed", "hr", "img", "input", "link", "meta", "source", "track", "wbr"
  }

  /** The tag stands alone: it is void, or ends with `/>`. */
  predicate StandsAlone(t: Styled) {
    Fold(t.name) in VOID_NAMES || (t.after != "" && t.after[|t.after| - 1] == '/')
  }

  lemma StandsAloneIs(t: Styled)
    requires IsStyled(t)
    ensures StandsAlone(t) <==>
      Fold(t.name) in HIDDEN_VOID || Angled(InnerOf(t))[|Angled(InnerOf(t))| - 2] == '/'
    ensures TextOf(t) == Angled(InnerOf(t))
  {
    StyledIs(t);
    LastOfStyle(t);
    VoidNames(Fold(t.name));
    hide IsStyled, InnerOf, Fold, VOID_NAMES, HIDDEN_VOID;
  }

  lemma VoidNames(name: string)
    ensures name in VOID_NAMES <==> name in HIDDEN_VOID
  {
  }

  lemma LastOfStyle(t: Styled)
    ensures var m := Angled(InnerOf(t)); m[|m| - 2] == if t.after == "" then t.quote else t.after[|t.after| - 1]
  {
  }

  lemma HeadStyledIs(t: Styled, x: string)
    requires IsStyled(t)
    ensures OpenerAt(TextOf(t) + x).Some? && OpenerAt(TextOf(t) + x).value.length == |TextOf(t)|
    ensures OpenerAt(TextOf(t) + x).value.tag == Fold(t.name)
    ensures IsHidden(OpenerAt(TextOf(t) + x).value) <==> Hides(t.style)
  {
    hide *;
    StyledIs(t);
    StyledOpens(t, x);
    HiddenQuoted(t, |TextOf(t)|);
  }

  lemma HiddenQuoted(t: Styled, length: nat)
    requires t.quote == '"' || t.quote == '\''
    ensures IsHidden(Opener(Fold(t.name), InQuotes(t), length)) <==> Hides(t.style)
  {
    hide IsHidden, Hides, Fold;
    HiddenIff(t.quote, t.style, Fold(t.name), length);
  }

  /** What the removal takes with a hiding tag's text: up to `n` of what follows. */
  lemma {:induction false} StyledGone(h: string, t: Styled, x: string, n: nat)
    requires IsStyled(t) && '<' !in h && Hides(t.style) && n <= |x|
    requires OpenerAt(TextOf(t) + x).Some? && OpenerAt(TextOf(t) + x).value.length == |TextOf(t)|
    requires HiddenLength(TextOf(t) + x, OpenerAt(TextOf(t) + x).value) == |TextOf(t)| + n
    ensures WithoutHidden(h + (TextOf(t) + x)) == h + WithoutHidden(x[n..])
  {
    hide *;
    HeadStyledIs(t, x);
    CopiedText(h, TextOf(t) + x);
    TextNotEmpty(t);
    HiddenHead(TextOf(t), x, n);
  }

  lemma TextNotEmpty(t: Styled)
    ensures TextOf(t) != ""
  {
  }

  /** A tag with a style that hides nothing stays, and the search goes on after it. */
  lemma {:induction false} ShownStays(h: string, t: Styled, x: string)
    requires IsStyled(t) && '<' !in h && !Hides(t.style)
    ensures WithoutHidden(h + (TextOf(t) + x)) == h + (TextOf(t) + WithoutHidden(x))
  {
    hide *;
    HeadStyledIs(t, x);
    CopiedText(h, TextOf(t) + x);
    TextNotEmpty(t);
    ShownHead(TextOf(t), x);
  }

  lemma {:induction false} StyledLength(t: Styled, x: string)
    requires IsStyled(t)
    ensures OpenerAt(TextOf(t) + x).Some? && OpenerAt(TextOf(t) + x).value.length == |TextOf(t)|
    ensures HiddenLength(TextOf(t) + x, OpenerAt(TextOf(t) + x).value) ==
      if StandsAlone(t) || ElementEnd(x, Fold(t.name), 1).None? then |TextOf(t)|
      else |TextOf(t)| + ElementEnd(x, Fold(t.name), 1).value
  {
    hide *;
    HeadStyledIs(t, x);
    StandsAloneIs(t);
    HiddenLengthIs(InnerOf(t), x, OpenerAt(TextOf(t) + x).value);
  }

  lemma AllOf(x: string)
    ensures x[0..] == x
  {
  }

  /** A hiding tag that stands alone goes, and nothing else. */
  lemma {:induction false} AloneGone(h: string, t: Styled, x: string)
    requires IsStyled(t) && '<' !in h && Hides(t.style) && StandsAlone(t)
    ensures WithoutHidden(h + (TextOf(t) + x)) == h + WithoutHidden(x)
  {
    hide *;
    StyledLength(t, x);
    StyledGone(h, t, x, 0);
    AllOf(x);
  }

  /** A hiding tag that nothing closes goes, and nothing else. */
  lemma {:induction false} UnclosedGone(h: string, t: Styled, x: string)
    requires IsStyled(t) && '<' !in h && Hides(t.style) && !HasCloser(x, Fold(t.name))
    ensures WithoutHidden(h + (TextOf(t) + x)) == h + WithoutHidden(x)
  {
    hide *;
    StyledLength(t, x);
    NameIsWord(t);
    NoCloserNoEnd(x, Fold(t.name), 1);
    StyledGone(h, t, x, 0);
    AllOf(x);
  }

  lemma NameIsWord(t: Styled)
    requires IsStyled(t)
    ensures IsWord(Fold(t.name))
  {
  }

  /** Any other hiding tag takes its element with it: the tags of its own name, in
      any case, inside are paired, and the first one left over closes it. */
  lemma {:induction false} ElementGone(h: string, t: Styled, content: seq<Item>, end: string, r: string)
    requires IsStyled(t) && '<' !in h && Hides(t.style) && !StandsAlone(t)
    requires AreBare(content) && IsBalanced(content, Fold(t.name))
    requires AllChars(end, IsNoBracket) && IsTagOf(end, true, Fold(t.name))
    ensures WithoutHidden(h + (TextOf(t) + (ItemsText(content) + ("<" + end + ">" + r)))) == h + WithoutHidden(r)
  {
    hide *;
    var x := ItemsText(content) + (Angled(end) + r);
    AngledIs(end, r);
    StyledLength(t, x);
    NameIsWord(t);
    BalancedOpen(content, Fold(t.name));
    EndAfter(content, end, r, Fold(t.name), 1);
    StyledGone(h, t, x, |ItemsText(content)| + |Angled(end)|);
    PastBoth(ItemsText(content), Angled(end), r);
  }

  lemma PastBoth(a: string, b: string, r: string)
    ensures |a| + |b| <= |a + (b + r)| && (a + (b + r))[|a| + |b|..] == r
  {
  }

  lemma AngledIs(inner: string, r: string)
    ensures "<" + inner + ">" + r == Angled(inner) + r
  {
  }

  lemma BalancedOpen(items: seq<Item>, name: string)
    requires IsBalanced(items, name)
    ensures LeavesOpen(items, name, 1)
  {
    hide Depth;
  }

  lemma {:induction false} NoLastQuote(t: string, k: nat, q: nat)
    requires 0 < k && k + q <= |t|
    requires forall i | k <= i <= k + q :: IsWordChar(t[i - 1]) || StyleQuote(t[i..]).None?
    ensures LastQuote(t, k, q).None?
    decreases q
  {
    hide StyleQuote, LastQuote, IsWordChar;
    LastQuoteStep(t, k, q);
    if q > 0 {
      NoLastQuote(t, k, q - 1);
    }
  }

  lemma NoQuoteAt(s: string, i: nat)
    requires 0 < i <= |s| && !HasStyleQuote(s)
    ensures IsWordChar(s[i - 1]) || StyleQuote(s[i..]).None?
  {
    hide IsWordChar, IsStyleQuote;
    if !IsWordChar(s[i - 1]) && StyleQuote(s[i..]).Some? {
      var b := StyleQuote(s[i..]).value;
      StyleQuoteIff(s[i..], b);
      var e: nat :| IsStyleQuote(s[i..], e, b);
      QuoteWithin(s[i..], e, b);
    }
  }

  lemma NoTagQuote(s: string)
    requires s != "" && (!HasStyleQuote(s) || |s| < 2 || !IsLetter(s[1]))
    ensures TagQuote(s).None?
  {
    hide HasStyleQuote, StyleQuote, LastQuote, IsWordChar, IsLetter;
    if !HasStyleQuote(s) {
      var k := 1 + Run(s[1..], IsAlnum);
      forall i | k <= i <= |s| ensures IsWordChar(s[i - 1]) || StyleQuote(s[i..]).None? {
        NoQuoteAt(s, i);
      }
      NoLastQuote(s, k, |s| - k);
    }
  }

  /** A tag without a quoted style stays, and so does a closing one. */
  lemma {:induction false} UnstyledStays(h: string, inner: string, x: string)
    requires '<' !in h && AllChars(inner, IsNoBracket)
    requires !HasStyleQuote("<" + inner) || inner == "" || !IsLetter(inner[0])
    ensures WithoutHidden(h + ("<" + inner + ">" + x)) == h + ("<" + inner + ">" + WithoutHidden(x))
  {
    hide *;
    var s := "<" + inner;
    HeadLetter(inner);
    NoTagQuote(s);
    TagBody(inner);
    OpenerFollows(s, ">" + x);
    CopiedText(h, s + (">" + x));
    BracketTail(inner, x);
    CopiedHead(s, ">" + x);
    CopiedText(inner + ">", x);
    assert h + (s + ">" + x) == h + (s + (">" + x));
    Spelled(inner, WithoutHidden(x));
  }

  lemma HeadLetter(inner: string)
    ensures var s := "<" + inner; s != "" && (inner != "" ==> |s| > 1 && s[1] == inner[0]) && (inner == "" ==> |s| == 1)
  {
  }

  lemma BracketTail(inner: string, x: string)
    requires AllChars(inner, IsNoBracket)
    ensures ("<" + inner)[1..] + (">" + x) == inner + ">" + x && '<' !in inner + ">" && ("<" + inner)[0] == '<'
  {
    assert ("<" + inner)[1..] == inner;
  }

  lemma Spelled(inner: string, r: string)
    ensures ['<'] + (inner + ">" + r) == "<" + inner + ">" + r
  {
  }
}
