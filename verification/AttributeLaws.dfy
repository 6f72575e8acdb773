/** Which attributes a quote keeps, and with which values (`cleanAttributes`,
    `safeUrl` and `safeStyle` of `shared/quoted-html.ts`), as laws about texts. */
module AttributeLaws {
  import opened Strings
  import opened Entities
  import opened Attributes

  // ---- Texts

  lemma FoldConcat(a: string, b: string)
    ensures Fold(a + b) == Fold(a) + Fold(b)
  {
  }

  lemma FoldSlice(s: string, i: nat, j: nat)
    requires i <= j <= |s|
    ensures |Fold(s)| == |s| && Fold(s)[i..j] == Fold(s[i..j])
  {
  }

  lemma FoldTail(s: string, i: nat)
    requires i <= |s|
    ensures |Fold(s)| == |s| && Fold(s)[i..] == Fold(s[i..])
  {
  }

  lemma Cut(s: string, n: nat)
    requires n <= |s|
    ensures s == s[..n] + s[n..]
  {
  }

  lemma Front(a: string, b: string)
    ensures (a + b)[..|a|] == a && (a + b)[|a|..] == b
  {
  }

  /** `s`, lower-cased, starts with `head`. */
  ghost predicate Begins(s: string, head: string) {
    exists rest: string :: Fold(s) == head + rest
  }

  lemma BeginsIff(s: string, head: string)
    ensures StartsWithFold(s, head) <==> Begins(s, head)
  {
    hide Fold;
    if StartsWithFold(s, head) {
      FoldSlice(s, 0, |head|);
      assert s[0..|head|] == s[..|head|];
      Cut(Fold(s), |head|);
      assert Fold(s)[0..|head|] == Fold(s)[..|head|];
    }
    if rest: string :| Fold(s) == head + rest {
      FoldTail(s, 0);
      FoldSlice(s, 0, |head|);
      assert s[0..|head|] == s[..|head|];
      Front(head, rest);
      assert Fold(s)[0..|head|] == Fold(s)[..|head|];
    }
  }

  // ---- URLs

  const SCHEMES: set<string> := {"http://", "https://", "mailto:", "tel:"}

  const URL_NAMES: set<string> := {"href", "src", "background", "cite"}

  predicate IsBase64Char(c: char) {
    'a' <= c <= 'z' || '0' <= c <= '9' || c == '+' || c == '/' || c == '=' || IsSpace(c)
  }

  /** An image of kind `kind`, with its data. */
  ghost predicate IsImageOf(url: string, kind: string) {
    exists data: string ::
      data != "" && AllChars(data, IsBase64Char) && Fold(url) == "data:image/" + kind + ";base64," + data
  }

  ghost predicate IsImage(url: string) {
    exists kind | kind in {"png", "gif", "jpg", "jpeg", "webp"} :: IsImageOf(url, kind)
  }

  /** The URLs a quote may carry. */
  ghost predicate MayLink(url: string, name: string, tag: string) {
    || (exists scheme | scheme in SCHEMES :: Begins(url, scheme))
    || (name == "href" && url != "" && url[0] == '#')
    || (name == "src" && Begins(url, "cid:"))
    || (name == "src" && tag == "img" && IsImage(url))
  }

  predicate IsControl(c: char) {
    c <= ' ' || c == '\U{7F}'
  }

  /** `v` is `url` with control characters before it and white space around the rest. */
  predicate IsAround(v: string, lead: string, before: string, url: string, after: string) {
    && v == lead + (before + url + after) && AllChars(lead, IsControl) && AllChars(before, IsSpace) && AllChars(after, IsSpace)
    && (before + url + after != "" ==> !IsControl((before + url + after)[0]))
    && (url != "" ==> !IsSpace(url[0]) && !IsSpace(url[|url| - 1]))
  }

  /** `url` is what `v` says without control characters before it, and without
      white space around the rest. */
  ghost predicate IsUrlIn(v: string, url: string) {
    exists lead: string, before: string, after: string :: IsAround(v, lead, before, url, after)
  }

  lemma SchemeIff(url: string)
    ensures HasSafeScheme(url) <==> exists scheme | scheme in SCHEMES :: Begins(url, scheme)
  {
    hide Begins, StartsWithFold;
    BeginsIff(url, "http://");
    BeginsIff(url, "https://");
    BeginsIff(url, "mailto:");
    BeginsIff(url, "tel:");
  }

  lemma DataChar(c: char)
    ensures IsImageDataChar(c) <==> IsBase64Char(FoldChar(c))
  {
  }

  lemma DataChars(url: string, n: nat)
    requires n <= |url|
    ensures (forall i | n <= i < |url| :: IsImageDataChar(url[i])) <==> AllChars(Fold(url)[n..], IsBase64Char)
  {
    forall i | n <= i < |url| ensures IsImageDataChar(url[i]) <==> IsBase64Char(Fold(url)[n..][i - n]) {
      DataChar(url[i]);
    }
    hide IsImageDataChar, IsBase64Char;
    if AllChars(Fold(url)[n..], IsBase64Char) {
      forall i | n <= i < |url| ensures IsImageDataChar(url[i]) {
        assert IsBase64Char(Fold(url)[n..][i - n]);
      }
    }
    if forall i | n <= i < |url| :: IsImageDataChar(url[i]) {
      forall j | 0 <= j < |Fold(url)[n..]| ensures IsBase64Char(Fold(url)[n..][j]) {
        assert IsImageDataChar(url[n + j]);
      }
    }
  }

  lemma ImageOfIff(url: string, kind: string)
    ensures IsImageData(url, kind) <==> IsImageOf(url, kind)
  {
    hide IsImageDataChar, IsBase64Char, AllChars, Fold;
    var head := "data:image/" + kind + ";base64,";
    BeginsIff(url, head);
    FoldTail(url, 0);
    if Begins(url, head) {
      var rest: string :| Fold(url) == head + rest;
      Front(head, rest);
      DataChars(url, |head|);
    }
  }

  lemma SafeUrlIff(url: string, name: string, tag: string)
    ensures IsSafeUrl(url, name, tag) <==> MayLink(url, name, tag)
  {
    hide HasSafeScheme, IsImageData, IsImageOf, StartsWithFold, Begins;
    SchemeIff(url);
    BeginsIff(url, "cid:");
    ImageOfIff(url, "png");
    ImageOfIff(url, "gif");
    ImageOfIff(url, "jpg");
    ImageOfIff(url, "jpeg");
    ImageOfIff(url, "webp");
    assert StartsWith(url, "#") <==> url != "" && url[0] == '#';
  }

  lemma {:induction false} ControlEnds(lead: string, rest: string)
    requires AllChars(lead, IsControl) && (rest != "" ==> !IsControl(rest[0]))
    ensures Run(lead + rest, IsControlOrBlank) == |lead|
  {
    RunIs(lead + rest, IsControlOrBlank, |lead|);
  }

  lemma UrlTextAround(v: string, lead: string, before: string, url: string, after: string)
    requires IsAround(v, lead, before, url, after)
    ensures UrlText(v) == url
  {
    hide UrlText, Trim, AllChars, IsSpace, IsControl, Run;
    var rest := before + url + after;
    ControlEnds(lead, rest);
    Front(lead, rest);
    UrlTextDrops(v, |lead|);
    TrimAround(before, url, after);
  }

  lemma UrlTextIs(v: string, url: string)
    requires IsUrlIn(v, url)
    ensures UrlText(v) == url
  {
    hide UrlText, IsAround;
    var lead: string, before: string, after: string :| IsAround(v, lead, before, url, after);
    UrlTextAround(v, lead, before, url, after);
  }

  lemma {:induction false} UrlTextDrops(v: string, n: nat)
    requires n == Run(v, IsControlOrBlank)
    ensures n <= |v| && UrlText(v) == Trim(v[n..])
  {
    hide Run, Trim;
  }

  lemma {:induction false} LeadSpace(s: string)
    ensures AllChars(s[..Run(s, IsSpace)], IsSpace)
  {
  }

  lemma {:induction false} TrailSpace(t: string)
    ensures AllChars(t[TrimEndLength(t)..], IsSpace)
  {
  }

  lemma {:induction false} TrimIs(s: string)
    ensures var t := s[Run(s, IsSpace)..]; Trim(s) == t[..TrimEndLength(t)]
  {
    hide Run, TrimEndLength, IsSpace;
  }

  lemma TwoCuts(s: string, k: nat, e: nat)
    requires k <= |s| && e <= |s| - k
    ensures s == s[..k] + s[k..][..e] + s[k..][e..]
  {
  }

  lemma TrimParts(s: string) returns (before: string, after: string)
    ensures s == before + Trim(s) + after && AllChars(before, IsSpace) && AllChars(after, IsSpace)
    ensures Trim(s) != "" ==> !IsSpace(Trim(s)[0]) && !IsSpace(Trim(s)[|Trim(s)| - 1])
  {
    hide *;
    TrimEnds(s);
    TrimIs(s);
    var k := Run(s, IsSpace);
    var e := TrimEndLength(s[k..]);
    LeadSpace(s);
    TrailSpace(s[k..]);
    TwoCuts(s, k, e);
    before, after := s[..k], s[k..][e..];
  }

  /** Every value says some URL. */
  lemma EveryUrl(v: string)
    ensures IsUrlIn(v, UrlText(v))
  {
    hide *;
    var n := Run(v, IsControlOrBlank);
    UrlTextDrops(v, n);
    ControlRun(v, n);
    var before, after := TrimParts(v[n..]);
    Cut(v, n);
    AroundIs(v, v[..n], before, UrlText(v), after);
  }

  lemma AroundIs(v: string, lead: string, before: string, url: string, after: string)
    requires v == lead + (before + url + after) && AllChars(lead, IsControl) && AllChars(before, IsSpace) && AllChars(after, IsSpace)
    requires before + url + after != "" ==> !IsControl((before + url + after)[0])
    requires url != "" ==> !IsSpace(url[0]) && !IsSpace(url[|url| - 1])
    ensures IsUrlIn(v, url)
  {
    hide AllChars, IsSpace, IsControl;
    assert IsAround(v, lead, before, url, after);
  }

  lemma {:induction false} ControlRun(v: string, n: nat)
    requires n == Run(v, IsControlOrBlank)
    ensures n <= |v| && AllChars(v[..n], IsControl) && (n < |v| ==> !IsControl(v[n..][0]))
  {
  }

  /** A URL is kept exactly when a quote may carry it. */
  lemma UrlKept(tag: string, name: string, v: string, url: string)
    requires name in URL_NAMES && IsUrlIn(v, url)
    ensures KeepValue(tag, name, v) == if MayLink(url, name, tag) then Some(url) else None
  {
    hide IsUrlIn, MayLink, IsSafeUrl, UrlText;
    UrlTextIs(v, url);
    SafeUrlIff(url, name, tag);
  }

  // ---- Styles that could run code

  /** `word` somewhere in the lower-cased text. */
  ghost predicate Says(css: string, word: string) {
    exists pre: string, post: string :: Fold(css) == pre + word + post
  }

  /** `word`, white space and `mark` somewhere in the lower-cased text. */
  ghost predicate SaysThen(css: string, word: string, mark: char) {
    exists pre: string, u: string, post: string :: AllChars(u, IsSpace) && Fold(css) == pre + word + u + [mark] + post
  }

  ghost predicate CouldRun(css: string) {
    || (exists word | word in {"\\", "javascript:", "vbscript:", "-moz-binding", "@import"} :: Says(css, word))
    || SaysThen(css, "expression", '(') || SaysThen(css, "behavior", ':') || SaysThen(css, "behaviour", ':')
  }

  lemma SaysIff(css: string, word: string)
    ensures Says(css, word) <==> exists i | 0 <= i <= |css| :: StartsWithFold(css[i..], word)
  {
    hide Fold, StartsWithFold;
    FoldTail(css, 0);
    if Says(css, word) {
      var pre: string, post: string :| Fold(css) == pre + word + post;
      assert Fold(css) == pre + (word + post);
      Front(pre, word + post);
      FoldTail(css, |pre|);
      BeginsIff(css[|pre|..], word);
    }
    if i :| 0 <= i <= |css| && StartsWithFold(css[i..], word) {
      BeginsIff(css[i..], word);
      var rest: string :| Fold(css[i..]) == word + rest;
      FoldTail(css, i);
      Cut(Fold(css), i);
      assert Fold(css) == Fold(css)[..i] + word + rest;
    }
  }

  lemma FoldSpace(c: char, mark: char)
    requires !('a' <= mark <= 'z') && !('A' <= mark <= 'Z')
    ensures IsSpace(FoldChar(c)) <==> IsSpace(c)
    ensures FoldChar(c) == mark <==> c == mark
  {
  }

  lemma FoldSpaces(u: string)
    ensures AllChars(Fold(u), IsSpace) <==> AllChars(u, IsSpace)
  {
    forall i | 0 <= i < |u| ensures IsSpace(Fold(u)[i]) <==> IsSpace(u[i]) {
      FoldSpace(u[i], '(');
    }
    hide IsSpace;
    if AllChars(Fold(u), IsSpace) {
      forall i | 0 <= i < |u| ensures IsSpace(u[i]) {
        assert IsSpace(Fold(u)[i]);
      }
    }
  }

  /** `word`, white space and `mark` at the head of the lower-cased text. */
  ghost predicate BeginsThen(s: string, word: string, mark: char) {
    exists u: string, post: string :: AllChars(u, IsSpace) && Fold(s) == word + u + [mark] + post
  }

  lemma WordThenIff(s: string, word: string, mark: char)
    requires !('a' <= mark <= 'z') && !('A' <= mark <= 'Z') && !IsSpace(mark)
    ensures WordThen(s, word, mark) <==> BeginsThen(s, word, mark)
  {
    hide Fold, IsSpace, Run, AllChars, StartsWithFold;
    if WordThen(s, word, mark) {
      WordThenFound(s, word, mark);
    }
    if BeginsThen(s, word, mark) {
      var u: string, post: string :| AllChars(u, IsSpace) && Fold(s) == word + u + [mark] + post;
      ThenFound(s, word, mark, u, post);
    }
  }

  lemma WordThenFound(s: string, word: string, mark: char)
    requires !('a' <= mark <= 'z') && !('A' <= mark <= 'Z') && WordThen(s, word, mark)
    ensures BeginsThen(s, word, mark)
  {
    var n := Run(s[|word|..], IsSpace);
    var k := |word| + n;
    var u := s[|word|..][..n];
    FoldSpaces(u);
    FoldSpace(s[k], mark);
    hide Run, IsSpace;
    assert u == s[|word|..k];
    Four(s, |word|, k);
    FoldFour(s[..|word|], u, [s[k]], s[k + 1..]);
    assert Fold([s[k]]) == [mark];
  }

  lemma Four(s: string, i: nat, k: nat)
    requires i <= k < |s|
    ensures s == s[..i] + s[i..k] + [s[k]] + s[k + 1..]
  {
  }

  lemma FoldFour(a: string, b: string, c: string, d: string)
    ensures Fold(a + b + c + d) == Fold(a) + Fold(b) + Fold(c) + Fold(d)
  {
    hide Fold;
    FoldConcat(a, b);
    FoldConcat(a + b, c);
    FoldConcat(a + b + c, d);
  }

  lemma ThenFound(s: string, word: string, mark: char, u: string, post: string)
    requires !('a' <= mark <= 'z') && !('A' <= mark <= 'Z') && !IsSpace(mark)
    requires AllChars(u, IsSpace) && Fold(s) == word + u + [mark] + post
    ensures WordThen(s, word, mark)
  {
    var n, k := |word|, |word| + |u|;
    FoldTail(s, n);
    FoldSlice(s, 0, n);
    FoldSlice(s, n, k);
    assert |s| > k && Fold(s)[k] == mark && Fold(s)[0..n] == word && Fold(s)[n..k] == u && s[0..n] == s[..n];
    FoldSpace(s[k], mark);
    assert Fold(s)[k] == FoldChar(s[k]);
    FoldSpaces(s[n..k]);
    hide Fold;
    assert forall i | 0 <= i < |u| :: s[n..][i] == s[n..k][i];
    assert s[n..][|u|] == s[k];
    RunIs(s[n..], IsSpace, |u|);
  }

  lemma SaysThenFound(css: string, word: string, mark: char)
    requires !('a' <= mark <= 'z') && !('A' <= mark <= 'Z') && !IsSpace(mark) && SaysThen(css, word, mark)
    ensures exists i | 0 <= i <= |css| :: WordThen(css[i..], word, mark)
  {
    hide Fold, WordThen, AllChars, IsSpace;
    var pre: string, u: string, post: string :| AllChars(u, IsSpace) && Fold(css) == pre + word + u + [mark] + post;
    ThenCut(css, pre, word, u, mark, post);
    WordThenIff(css[|pre|..], word, mark);
  }

  lemma ThenCut(css: string, pre: string, word: string, u: string, mark: char, post: string)
    requires AllChars(u, IsSpace) && Fold(css) == pre + word + u + [mark] + post
    ensures |pre| <= |css| && BeginsThen(css[|pre|..], word, mark)
  {
    hide Fold, AllChars, IsSpace;
    var rest := word + u + [mark] + post;
    assert Fold(css) == pre + rest;
    Front(pre, rest);
    FoldTail(css, 0);
    FoldTail(css, |pre|);
  }

  lemma ThenJoined(css: string, i: nat, word: string, mark: char)
    requires i <= |css| && BeginsThen(css[i..], word, mark)
    ensures SaysThen(css, word, mark)
  {
    hide Fold, AllChars, IsSpace;
    var u: string, post: string :| AllChars(u, IsSpace) && Fold(css[i..]) == word + u + [mark] + post;
    FoldTail(css, i);
    Cut(Fold(css), i);
    assert Fold(css) == Fold(css)[..i] + word + u + [mark] + post;
  }

  lemma SaysThenIff(css: string, word: string, mark: char)
    requires !('a' <= mark <= 'z') && !('A' <= mark <= 'Z') && !IsSpace(mark)
    ensures SaysThen(css, word, mark) <==> exists i | 0 <= i <= |css| :: WordThen(css[i..], word, mark)
  {
    hide SaysThen, WordThen, BeginsThen, IsSpace;
    if SaysThen(css, word, mark) {
      SaysThenFound(css, word, mark);
    }
    if i :| 0 <= i <= |css| && WordThen(css[i..], word, mark) {
      WordThenIff(css[i..], word, mark);
      ThenJoined(css, i, word, mark);
    }
  }

  lemma BackslashIs(s: string)
    ensures StartsWith(s, "\\") <==> StartsWithFold(s, "\\")
  {
    if s != "" {
      assert s[..1] == [s[0]] && Fold(s[..1]) == [FoldChar(s[0])];
      FoldSpace(s[0], '\\');
    }
  }

  /** A style is risky exactly when it could run code. */
  lemma RiskyIff(css: string)
    ensures HasRiskyCss(css) <==> CouldRun(css)
  {
    hide WordThen, StartsWithFold, StartsWith, Says, SaysThen;
    MarksNoSpace();
    SaysIff(css, "\\");
    SaysIff(css, "javascript:");
    SaysIff(css, "vbscript:");
    SaysIff(css, "-moz-binding");
    SaysIff(css, "@import");
    SaysThenIff(css, "expression", '(');
    SaysThenIff(css, "behavior", ':');
    SaysThenIff(css, "behaviour", ':');
    forall i | 0 <= i <= |css| ensures StartsWith(css[i..], "\\") <==> StartsWithFold(css[i..], "\\") {
      BackslashIs(css[i..]);
    }
  }

  lemma MarksNoSpace()
    ensures !IsSpace('(') && !IsSpace(':')
  {
  }

  // ---- What a style loads

  /** A piece of a style: words, or `url(` and its target. */
  datatype Css =
    | Words(text: string)
    | Target(word: string, u: string, v: string, quote: string, w: string, url: string)

  function CssText(c: Css): string {
    match c
    case Words(text) => text
    case Target(word, u, v, quote, w, url) => word + u + "(" + (v + quote + w + url)
  }

  function CssTextAll(cs: seq<Css>): string {
    if cs == [] then "" else CssText(cs[0]) + CssTextAll(cs[1..])
  }

  predicate IsTargetChar(c: char) {
    c != '\'' && c != '"' && c != ')' && !IsSpace(c)
  }

  /** A piece in front of `rest`. */
  ghost predicate IsCssPart(c: Css, rest: string) {
    match c
    case Words(text) => forall i | 0 <= i < |text| :: !BeginsThen((text + rest)[i..], "url", '(')
    case Target(word, u, v, quote, w, url) =>
      && Fold(word) == "url" && AllChars(u, IsSpace) && AllChars(v, IsSpace) && AllChars(w, IsSpace)
      && IsQuoting(quote) && (quote == "" ==> w == "")
      && AllChars(url, IsTargetChar) && (rest != "" ==> !IsTargetChar(rest[0]))
      && (url == "" && rest != "" ==> rest[0] == ')' || (quote != "" && !IsSpace(rest[0])))
  }

  ghost predicate IsCss(cs: seq<Css>) {
    cs == [] || (IsCssPart(cs[0], CssTextAll(cs[1..])) && IsCss(cs[1..]))
  }

  ghost predicate MayLoad(url: string) {
    Begins(url, "http://") || Begins(url, "https://") || Begins(url, "cid:")
  }

  /** Every target may be loaded. */
  ghost predicate LoadsOnly(cs: seq<Css>) {
    forall i | 0 <= i < |cs| && cs[i].Target? :: MayLoad(cs[i].url)
  }

  lemma StartIff(s: string)
    ensures CssUrlStart(s).Some? <==> BeginsThen(s, "url", '(')
  {
    MarksNoSpace();
    hide WordThen, BeginsThen, Run;
    WordThenIff(s, "url", '(');
  }

  lemma LoadIff(url: string)
    ensures IsSafeCssTarget(url) <==> MayLoad(url)
  {
    hide StartsWithFold, Begins;
    BeginsIff(url, "http://");
    BeginsIff(url, "https://");
    BeginsIff(url, "cid:");
  }

  lemma {:induction false} SafeStep(s: string)
    ensures HasSafeCssUrls(s) <==>
      s == "" || match CssUrlStart(s)
        case None => HasSafeCssUrls(s[1..])
        case Some(k) =>
          var n := Run(s[k..], IsCssUrlChar);
          IsSafeCssTarget(s[k..k + n]) && HasSafeCssUrls(s[k + n..])
  {
    hide CssUrlStart, Run, IsSafeCssTarget;
  }

  lemma {:induction false} WordsSafe(text: string, rest: string)
    requires forall i | 0 <= i < |text| :: !BeginsThen((text + rest)[i..], "url", '(')
    ensures HasSafeCssUrls(text + rest) <==> HasSafeCssUrls(rest)
  {
    hide HasSafeCssUrls, BeginsThen, CssUrlStart;
    if text == "" {
      assert text + rest == rest;
    } else {
      var s := text + rest;
      assert s[0..] == s;
      StartIff(s);
      SafeStep(s);
      TailConcat(text, rest);
      forall i | 0 <= i < |text[1..]| ensures !BeginsThen((text[1..] + rest)[i..], "url", '(') {
        assert (text[1..] + rest)[i..] == s[i + 1..];
      }
      WordsSafe(text[1..], rest);
    }
  }

  predicate StartsUnspaced(x: string) {
    x != "" ==> !IsSpace(x[0])
  }

  predicate StartsUnquoted(x: string) {
    x != "" ==> x[0] != '\'' && x[0] != '"'
  }

  /** Where white space ends in front of `x`. */
  lemma SpaceThen(s: string, i: nat, u: string, x: string)
    requires i <= |s| && s[i..] == u + x && AllChars(u, IsSpace) && StartsUnspaced(x)
    ensures Run(s[i..], IsSpace) == |u| && i + |u| <= |s| && s[i + |u|..] == x
  {
    RunIs(u + x, IsSpace, |u|);
    Front(u, x);
    assert s[i..][|u|..] == s[i + |u|..];
  }

  lemma AtHead(s: string, i: nat, c: char, x: string)
    requires i <= |s| && s[i..] == [c] + x
    ensures i < |s| && s[i] == c && s[i + 1..] == x
  {
    assert s[i..][1..] == s[i + 1..] && s[i..][0] == s[i];
  }

  predicate IsQuoting(quote: string) {
    quote == "" || quote == "'" || quote == "\""
  }

  lemma QuoteAt(s: string, i: nat, quote: string, x: string)
    requires i <= |s| && s[i..] == quote + x && IsQuoting(quote)
    requires quote == "" ==> StartsUnquoted(x)
    ensures |quote| <= 1 && i + |quote| <= |s| && s[i + |quote|..] == x
    ensures |quote| == 1 <==> i < |s| && (s[i] == '\'' || s[i] == '"')
  {
    if quote == "" {
      assert quote + x == x;
      assert i < |s| ==> s[i..][0] == s[i];
    } else {
      assert quote == [quote[0]];
      AtHead(s, i, quote[0], x);
    }
  }

  lemma MarkUnspaced(x: string)
    ensures StartsUnspaced(['('] + x)
  {
    MarksNoSpace();
  }

  lemma AfterQuote(s: string, b: nat, quote: string, w: string, x: string)
    requires b <= |s| && s[b..] == quote + (w + x) && AllChars(w, IsSpace)
    requires IsQuoting(quote) && (quote == "" ==> StartsUnquoted(w + x)) && StartsUnspaced(x)
    ensures |quote| <= 1 && b + |quote| + |w| <= |s| && s[b + |quote| + |w|..] == x
    ensures Run(s[b + |quote|..], IsSpace) == |w| && (|quote| == 1 <==> b < |s| && (s[b] == '\'' || s[b] == '"'))
  {
    hide *;
    QuoteAt(s, b, quote, w + x);
    SpaceThen(s, b + |quote|, w, x);
  }

  lemma AfterMark(s: string, i: nat, v: string, quote: string, w: string, x: string)
    requires i <= |s| && s[i..] == v + (quote + (w + x)) && AllChars(v, IsSpace) && AllChars(w, IsSpace)
    requires IsQuoting(quote) && (quote == "" ==> StartsUnquoted(w + x))
    requires StartsUnspaced(x) && StartsUnspaced(quote + (w + x))
    ensures var b := i + |v|;
      && Run(s[i..], IsSpace) == |v| && |quote| <= 1 && b + |quote| + |w| <= |s| && s[b + |quote| + |w|..] == x
      && Run(s[b + |quote|..], IsSpace) == |w| && (|quote| == 1 <==> b < |s| && (s[b] == '\'' || s[b] == '"'))
  {
    hide *;
    SpaceThen(s, i, v, quote + (w + x));
    AfterQuote(s, i + |v|, quote, w, x);
  }

  lemma StartAt(s: string, n: nat, u: string, v: string, quote: string, w: string, x: string)
    requires n == 3 && n <= |s| && s[n..] == u + (['('] + (v + (quote + (w + x)))) && Fold(s[..n]) == "url"
    requires AllChars(u, IsSpace) && AllChars(v, IsSpace) && AllChars(w, IsSpace)
    requires IsQuoting(quote) && (quote == "" ==> StartsUnquoted(w + x))
    requires StartsUnspaced(x) && StartsUnspaced(quote + (w + x))
    ensures var k := 4 + |u| + |v| + |quote| + |w|; CssUrlStart(s) == Some(k) && k <= |s| && s[k..] == x
  {
    hide *;
    var y := v + (quote + (w + x));
    MarkUnspaced(y);
    SpaceThen(s, 3, u, ['('] + y);
    AtHead(s, 3 + |u|, '(', y);
    AfterMark(s, 4 + |u|, v, quote, w, x);
    CssStartIs(s, |u|, |v|, |quote|, |w|);
  }

  lemma QuotesNoSpace()
    ensures !IsSpace('\'') && !IsSpace('"')
  {
  }

  lemma QuoteFirst(quote: string, w: string, x: string)
    requires IsQuoting(quote) && (quote == "" ==> w == "") && StartsUnspaced(x)
    ensures StartsUnspaced(quote + (w + x))
  {
    QuotesNoSpace();
  }

  lemma CssStartIs(s: string, u: nat, v: nat, q: nat, w: nat)
    requires 4 + u + v + q + w <= |s| && Fold(s[..3]) == "url" && s[3 + u] == '(' && q <= 1
    requires Run(s[3..], IsSpace) == u && Run(s[4 + u..], IsSpace) == v && Run(s[4 + u + v + q..], IsSpace) == w
    requires q == 1 <==> 4 + u + v < |s| && (s[4 + u + v] == '\'' || s[4 + u + v] == '"')
    ensures CssUrlStart(s) == Some(4 + u + v + q + w)
  {
    hide Run, Fold;
  }

  /** What follows a target's first word. */
  function AfterWord(c: Css, x: string): string
    requires c.Target?
  {
    c.u + (['('] + (c.v + (c.quote + (c.w + x))))
  }

  lemma TargetText(c: Css, rest: string)
    requires c.Target?
    ensures CssText(c) + rest == c.word + AfterWord(c, c.url + rest)
  {
  }

  lemma TargetIs(c: Css, rest: string)
    requires c.Target? && IsCssPart(c, rest)
    ensures Fold(c.word) == "url" && AllChars(c.u, IsSpace) && AllChars(c.v, IsSpace) && AllChars(c.w, IsSpace)
    ensures IsQuoting(c.quote) && (c.quote == "" ==> c.w == "") && |c.word| == 3
    ensures CssText(c) + rest == c.word + AfterWord(c, c.url + rest)
  {
    hide IsSpace, AllChars, IsTargetChar, Fold, AfterWord, CssText;
    WordThree(c.word);
    TargetText(c, rest);
  }

  lemma StartOf(s: string, c: Css, x: string)
    requires c.Target? && |s| >= 3 && s[3..] == AfterWord(c, x) && Fold(s[..3]) == "url"
    requires AllChars(c.u, IsSpace) && AllChars(c.v, IsSpace) && AllChars(c.w, IsSpace)
    requires IsQuoting(c.quote) && (c.quote == "" ==> StartsUnquoted(c.w + x))
    requires StartsUnspaced(x) && StartsUnspaced(c.quote + (c.w + x))
    ensures var k := 4 + |c.u| + |c.v| + |c.quote| + |c.w|; CssUrlStart(s) == Some(k) && k <= |s| && s[k..] == x
  {
    hide AllChars, IsSpace, Fold, CssUrlStart, IsQuoting, StartsUnquoted, StartsUnspaced;
    StartAt(s, 3, c.u, c.v, c.quote, c.w, x);
  }

  lemma {:induction false} TargetStarts(c: Css, rest: string)
    requires c.Target? && IsCssPart(c, rest)
    ensures StartsUnspaced(c.url + rest) && Run(c.url + rest, IsCssUrlChar) == |c.url|
    ensures c.quote == "" ==> StartsUnquoted(c.w + (c.url + rest))
  {
    hide Fold;
    TargetHead(c.url, rest, c.quote);
    assert "" + (c.url + rest) == c.url + rest;
    hide IsSpace, Run, AllChars, IsTargetChar, IsCssUrlChar;
  }

  lemma TargetTaken(c: Css, rest: string)
    requires c.Target? && IsCssPart(c, rest)
    ensures var s, k := CssText(c) + rest, 4 + |c.u| + |c.v| + |c.quote| + |c.w|;
      s != "" && CssUrlStart(s) == Some(k) && k <= |s| && s[k..] == c.url + rest
  {
    hide *;
    var s := CssText(c) + rest;
    TargetIs(c, rest);
    TargetStarts(c, rest);
    QuoteFirst(c.quote, c.w, c.url + rest);
    Front(c.word, AfterWord(c, c.url + rest));
    StartOf(s, c, c.url + rest);
  }

  lemma {:induction false} TargetSafe(c: Css, rest: string)
    requires c.Target? && IsCssPart(c, rest)
    ensures HasSafeCssUrls(CssText(c) + rest) <==> MayLoad(c.url) && HasSafeCssUrls(rest)
  {
    hide *;
    var s, k := CssText(c) + rest, 4 + |c.u| + |c.v| + |c.quote| + |c.w|;
    TargetTaken(c, rest);
    TargetStarts(c, rest);
    Front(c.url, rest);
    Nested(s, k, |c.url|);
    SafeStep(s);
    LoadIff(c.url);
  }

  lemma Nested(s: string, k: nat, n: nat)
    requires k <= |s| && n <= |s[k..]|
    ensures s[k..k + n] == s[k..][..n] && s[k + n..] == s[k..][n..]
  {
  }

  lemma WordThree(word: string)
    requires Fold(word) == "url"
    ensures |word| == 3
  {
    assert |Fold(word)| == |word|;
  }

  lemma TargetHead(url: string, rest: string, quote: string)
    requires AllChars(url, IsTargetChar) && (rest != "" ==> !IsTargetChar(rest[0]))
    requires url == "" && rest != "" ==> rest[0] == ')' || (quote != "" && !IsSpace(rest[0]))
    ensures var x := url + rest;
      && StartsUnspaced(x) && (quote == "" ==> StartsUnquoted(x))
      && Run(x, IsCssUrlChar) == |url|
  {
    MarkIsNoSpace();
    RunIs(url + rest, IsCssUrlChar, |url|);
  }

  lemma MarkIsNoSpace()
    ensures !IsSpace(')')
  {
  }

  lemma {:induction false} LoadsIff(cs: seq<Css>)
    requires IsCss(cs)
    ensures HasSafeCssUrls(CssTextAll(cs)) <==> LoadsOnly(cs)
  {
    hide CssText, IsCssPart, MayLoad;
    if cs != [] {
      hide HasSafeCssUrls;
      LoadsIff(cs[1..]);
      PartSafe(cs[0], CssTextAll(cs[1..]));
      LoadsCons(cs);
    }
  }

  lemma LoadsCons(cs: seq<Css>)
    requires cs != []
    ensures LoadsOnly(cs) <==> (cs[0].Target? ==> MayLoad(cs[0].url)) && LoadsOnly(cs[1..])
  {
    hide MayLoad;
    if (cs[0].Target? ==> MayLoad(cs[0].url)) && LoadsOnly(cs[1..]) {
      forall i | 0 <= i < |cs| && cs[i].Target? ensures MayLoad(cs[i].url) {
        if i > 0 {
          assert cs[i] == cs[1..][i - 1];
        }
      }
    }
    if LoadsOnly(cs) {
      forall i | 0 <= i < |cs[1..]| && cs[1..][i].Target? ensures MayLoad(cs[1..][i].url) {
        assert cs[1..][i] == cs[i + 1];
      }
    }
  }

  lemma {:induction false} PartSafe(c: Css, rest: string)
    requires IsCssPart(c, rest)
    ensures HasSafeCssUrls(CssText(c) + rest) <==> (c.Target? ==> MayLoad(c.url)) && HasSafeCssUrls(rest)
  {
    hide HasSafeCssUrls, BeginsThen, MayLoad, IsSpace, Fold, IsTargetChar, AllChars;
    match c {
      case Words(text) => WordsSafe(text, rest);
      case Target(_, _, _, _, _, _) => TargetSafe(c, rest);
    }
  }

  /** A style is kept exactly when it cannot run code and loads only what it may. */
  lemma {:induction false} StyleKept(tag: string, cs: seq<Css>)
    requires IsCss(cs)
    ensures var css := CssTextAll(cs);
      KeepValue(tag, "style", css) == if !CouldRun(css) && LoadsOnly(cs) then Some(css) else None
  {
    hide IsCss, CouldRun, LoadsOnly, HasRiskyCss, HasSafeCssUrls, CssTextAll;
    RiskyIff(CssTextAll(cs));
    LoadsIff(cs);
  }

  lemma OneLetter(c: char, rest: string)
    requires !BeginsThen([c] + rest, "url", '(')
    ensures IsCssPart(Words([c]), rest)
  {
    hide BeginsThen;
    assert ([c] + rest)[0..] == [c] + rest;
  }

  lemma {:induction false} CssCons(c: Css, cs: seq<Css>)
    requires IsCss(cs) && IsCssPart(c, CssTextAll(cs))
    ensures IsCss([c] + cs) && CssTextAll([c] + cs) == CssText(c) + CssTextAll(cs)
  {
    hide IsCssPart, CssText;
    assert ([c] + cs)[1..] == cs;
  }

  lemma SpaceCut(s: string, i: nat) returns (j: nat)
    requires i <= |s|
    ensures i <= j <= |s| && j == i + Run(s[i..], IsSpace) && AllChars(s[i..j], IsSpace) && (j < |s| ==> !IsSpace(s[j]))
  {
    var n := Run(s[i..], IsSpace);
    j := i + n;
    hide IsSpace;
    assert s[i..j] == s[i..][..n];
  }

  lemma StartParts(s: string, p: nat)
    requires CssUrlStart(s).Some? && (|s| >= 3 ==> p == 3 + Run(s[3..], IsSpace))
    ensures |s| >= 3 && |s| > p && Fold(s[..3]) == "url" && s[p] == '('
  {
    hide Run, Fold, IsSpace;
  }

  lemma NoneLeft(s: string, b: nat)
    requires b <= |s| && (b < |s| ==> !IsSpace(s[b]))
    ensures Run(s[b..], IsSpace) == 0
  {
    RunIs(s[b..], IsSpace, 0);
  }

  lemma QuoteCut(s: string, b: nat) returns (d: nat)
    requires b <= |s| && (b < |s| ==> !IsSpace(s[b]))
    ensures d == (if b < |s| && (s[b] == '\'' || s[b] == '"') then b + 1 else b) && b <= d <= |s|
    ensures IsQuoting(s[b..d]) && (d == b ==> Run(s[d..], IsSpace) == 0)
    ensures d == b ==> d == |s| || (s[d] != '\'' && s[d] != '"')
  {
    hide Run, IsSpace;
    d := if b < |s| && (s[b] == '\'' || s[b] == '"') then b + 1 else b;
    if d == b {
      NoneLeft(s, b);
    } else {
      assert s[b..d] == [s[b]];
    }
  }

  /** `s` starts with a target: `(` at `p`, a quote from `b` to `d`, and the
      target itself from `k` to `e`. */
  predicate IsCutAt(s: string, p: nat, b: nat, d: nat, k: nat, e: nat) {
    && 3 <= p < b <= d <= k <= e <= |s| && Fold(s[..3]) == "url" && s[p] == '('
    && AllChars(s[3..p], IsSpace) && AllChars(s[p + 1..b], IsSpace) && IsQuoting(s[b..d]) && AllChars(s[d..k], IsSpace)
    && (b == d ==> d == k) && AllChars(s[k..e], IsTargetChar) && (e < |s| ==> !IsTargetChar(s[e]))
    && (k < |s| ==> !IsSpace(s[k]) && (b == d ==> s[k] != '\'' && s[k] != '"'))
  }

  lemma CutTarget(s: string) returns (p: nat, b: nat, d: nat, k: nat, e: nat)
    requires CssUrlStart(s).Some?
    ensures IsCutAt(s, p, b, d, k, e)
  {
    hide *;
    StartParts(s, if |s| >= 3 then 3 + Run(s[3..], IsSpace) else 0);
    p := SpaceCut(s, 3);
    b := SpaceCut(s, p + 1);
    d := QuoteCut(s, b);
    k := SpaceCut(s, d);
    e := k + Run(s[k..], IsCssUrlChar);
    TargetEnds(s, k, e - k);
    IsCutIf(s, p, b, d, k, e);
  }

  lemma IsCutIf(s: string, p: nat, b: nat, d: nat, k: nat, e: nat)
    requires 3 <= p < b <= d <= k <= e <= |s| && Fold(s[..3]) == "url" && s[p] == '('
    requires AllChars(s[3..p], IsSpace) && AllChars(s[p + 1..b], IsSpace) && IsQuoting(s[b..d]) && AllChars(s[d..k], IsSpace)
    requires AllChars(s[k..e], IsTargetChar) && (e < |s| ==> !IsTargetChar(s[e]))
    requires k < |s| ==> !IsSpace(s[k]) && (b == d ==> s[k] != '\'' && s[k] != '"')
    requires b == d ==> d == k
    ensures IsCutAt(s, p, b, d, k, e)
  {
    hide AllChars, Fold, IsQuoting, IsSpace, IsTargetChar;
  }

  lemma PartIs(s: string, p: nat, b: nat, d: nat, k: nat, e: nat)
    requires IsCutAt(s, p, b, d, k, e)
    ensures IsCssPart(Target(s[..3], s[3..p], s[p + 1..b], s[b..d], s[d..k], s[k..e]), s[e..])
  {
    hide Fold, AllChars, IsQuoting;
    assert e < |s| ==> s[e..][0] == s[e];
  }

  lemma CutBounds(s: string, p: nat, b: nat, d: nat, k: nat, e: nat)
    requires IsCutAt(s, p, b, d, k, e)
    ensures 3 <= p < b <= d <= k <= e <= |s| && s[p] == '('
  {
  }

  /** A target at the head of `s`, and the rest. */
  lemma TargetFirst(s: string) returns (c: Css, rest: string)
    requires CssUrlStart(s).Some?
    ensures c.Target? && IsCssPart(c, rest) && s == CssText(c) + rest && |rest| < |s|
  {
    hide *;
    var p, b, d, k, e := CutTarget(s);
    CutBounds(s, p, b, d, k, e);
    c := Target(s[..3], s[3..p], s[p + 1..b], s[b..d], s[d..k], s[k..e]);
    rest := s[e..];
    PartIs(s, p, b, d, k, e);
    Rebuilt(s, p, b, d, k, e);
    TargetTextIs(c);
  }

  lemma TargetTextIs(c: Css)
    requires c.Target?
    ensures CssText(c) == c.word + c.u + "(" + (c.v + c.quote + c.w + c.url)
  {
  }

  lemma TargetEnds(s: string, k: nat, n: nat)
    requires k <= |s| && n == Run(s[k..], IsCssUrlChar)
    ensures k + n <= |s| && AllChars(s[k..][..n], IsTargetChar) && (k + n < |s| ==> !IsTargetChar(s[k + n]))
    ensures s[k..][..n] == s[k..k + n]
  {
  }

  lemma Rebuilt(s: string, p: nat, b: nat, d: nat, k: nat, e: nat)
    requires 3 <= p < b + 1 && p + 1 <= b <= d <= k <= e <= |s| && s[p] == '('
    ensures s == s[..3] + s[3..p] + "(" + (s[p + 1..b] + s[b..d] + s[d..k] + s[k..e]) + s[e..]
  {
    assert s == s[..3] + s[3..p] + [s[p]] + s[p + 1..];
    assert s[p + 1..] == s[p + 1..b] + s[b..d] + s[d..k] + s[k..e] + s[e..];
  }

  /** Every style is made of such pieces. */
  lemma {:induction false} EveryStyle(css: string) returns (cs: seq<Css>)
    ensures IsCss(cs) && CssTextAll(cs) == css
    decreases |css|
  {
    hide *;
    if css == "" {
      cs := [];
      NoCss();
    } else if CssUrlStart(css).Some? {
      var c, rest := TargetFirst(css);
      var more := EveryStyle(rest);
      CssCons(c, more);
      cs := [c] + more;
    } else {
      StartIff(css);
      var more := EveryStyle(css[1..]);
      Cut(css, 1);
      assert css[..1] == [css[0]];
      OneLetter(css[0], css[1..]);
      CssCons(Words([css[0]]), more);
      cs := [Words([css[0]])] + more;
      WordsText([css[0]]);
    }
  }

  lemma NoCss()
    ensures IsCss([]) && CssTextAll([]) == ""
  {
  }

  lemma WordsText(text: string)
    ensures CssText(Words(text)) == text
  {
  }

  // ---- What becomes of a value

  /** What a decoded value of attribute `name`, in lower case, becomes. */
  ghost predicate IsFate(tag: string, name: string, v: string, fate: Option<string>) {
    if name in URL_NAMES then exists url: string :: IsUrlIn(v, url) && fate == if MayLink(url, name, tag) then Some(url) else None
    else if name == "style" then
      exists cs: seq<Css> :: IsCss(cs) && v == CssTextAll(cs) && fate == if !CouldRun(v) && LoadsOnly(cs) then Some(v) else None
    else fate == Some(v)
  }

  lemma UrlNames()
    ensures URL_NAMES == URL_ATTRS && "style" !in URL_NAMES
  {
  }

  /** A value has one fate, which is what the cleaning makes of it. */
  lemma FateIff(tag: string, name: string, v: string, fate: Option<string>)
    ensures IsFate(tag, name, v, fate) <==> KeepValue(tag, name, v) == fate
  {
    UrlNames();
    hide IsUrlIn, MayLink, IsCss, CouldRun, LoadsOnly, CssTextAll, URL_NAMES, URL_ATTRS, KeepValue, UrlText;
    if name in URL_NAMES {
      EveryUrl(v);
      UrlKept(tag, name, v, UrlText(v));
      if IsFate(tag, name, v, fate) {
        var url: string :| IsUrlIn(v, url) && fate == if MayLink(url, name, tag) then Some(url) else None;
        UrlKept(tag, name, v, url);
      }
    } else if name == "style" {
      var cs := EveryStyle(v);
      StyleKept(tag, cs);
      if IsFate(tag, name, v, fate) {
        var ds: seq<Css> :| IsCss(ds) && v == CssTextAll(ds) && fate == if !CouldRun(v) && LoadsOnly(ds) then Some(v) else None;
        StyleKept(tag, ds);
      }
    } else {
      OtherValue(tag, name, v);
    }
  }

  lemma OtherValue(tag: string, name: string, v: string)
    requires name !in URL_NAMES && name != "style"
    ensures KeepValue(tag, name, v) == Some(v)
  {
    UrlNames();
    hide URL_NAMES, URL_ATTRS;
  }

  // ---- Attributes as written

  datatype Form =
    | Bare
    | Quoted(u: string, v: string, quote: char, raw: string)
    | Unquoted(u: string, v: string, raw: string)

  /** An attribute as written, and what its value becomes. */
  datatype Written = Written(gap: string, name: string, form: Form, fate: Option<string>)

  function FormText(f: Form): string {
    match f
    case Bare => ""
    case Quoted(u, v, quote, raw) => u + "=" + (v + [quote] + raw + [quote])
    case Unquoted(u, v, raw) => u + "=" + (v + raw)
  }

  function RawOf(f: Form): string {
    match f
    case Bare => ""
    case Quoted(_, _, _, raw) => raw
    case Unquoted(_, _, raw) => raw
  }

  function WrittenText(w: Written): string {
    w.gap + (w.name + FormText(w.form))
  }

  function WrittenAll(ws: seq<Written>): string {
    if ws == [] then "" else WrittenText(ws[0]) + WrittenAll(ws[1..])
  }

  predicate IsGapChar(c: char) {
    IsSpace(c) || c == '/'
  }

  /** White space first, then slashes too. */
  predicate IsGap(s: string) {
    s != "" && IsSpace(s[0]) && AllChars(s, IsGapChar)
  }

  predicate IsNamePart(c: char) {
    !IsSpace(c) && c != '"' && c != '\'' && c != '>' && c != '/' && c != '='
  }

  predicate IsBareChar(c: char) {
    !IsSpace(c) && c != '>'
  }

  predicate IsForm(f: Form) {
    match f
    case Bare => true
    case Quoted(u, v, quote, raw) =>
      AllChars(u, IsSpace) && AllChars(v, IsSpace) && (quote == '"' || quote == '\'') && quote !in raw
    case Unquoted(u, v, raw) =>
      && AllChars(u, IsSpace) && AllChars(v, IsSpace)
      && raw != "" && AllChars(raw, IsBareChar) && raw[0] != '"' && raw[0] != '\''
  }

  ghost predicate IsWritten(w: Written, tag: string) {
    && IsGap(w.gap) && w.name != "" && AllChars(w.name, IsNamePart) && IsForm(w.form)
    && IsFate(tag, Lower(w.name), DecodeEntities(RawOf(w.form)), w.fate)
  }

  ghost predicate AreWritten(ws: seq<Written>, tag: string) {
    forall i | 0 <= i < |ws| :: IsWritten(ws[i], tag)
  }

  const KEPT_NAMES: set<string> := {
    "abbr", "align", "alt", "background", "bgcolor", "border", "cellpadding", "cellspacing",
    "cite", "class", "color", "colspan", "datetime", "dir", "face", "headers", "height", "href",
    "hspace", "lang", "nowrap", "rowspan", "scope", "size", "span", "src", "start", "style",
    "summary", "title", "valign", "vspace", "width"
  }

  /** The attributes kept: of each name the first, if its value is kept. */
  function Shown(ws: seq<Written>, seen: set<string>): string {
    if ws == [] then ""
    else
      var name := Lower(ws[0].name);
      if name !in KEPT_NAMES || name in seen then Shown(ws[1..], seen)
      else (if ws[0].fate.Some? then " " + name + "=\"" + EscapeAttr(ws[0].fate.value) + "\"" else "") + Shown(ws[1..], seen + {name})
  }

  /** The first `href` is kept. */
  predicate KeepsLink(ws: seq<Written>) {
    ws != [] && if Lower(ws[0].name) == "href" then ws[0].fate.Some? else KeepsLink(ws[1..])
  }

  const LINK := " target=\"" + "_blank" + ("\" rel=\"" + "noopener noreferrer" + "\"")

  // ---- They are scanned as written

  function RawsOf(ws: seq<Written>): seq<RawAttr> {
    if ws == [] then [] else [RawAttr(ws[0].name, RawOf(ws[0].form))] + RawsOf(ws[1..])
  }

  /** What may follow an attribute: nothing, or a gap, and no `=` after it. */
  predicate MayFollow(r: string) {
    r != "" ==> IsSpace(r[0]) && (var n := Run(r, IsSpace); n < |r| ==> r[n] != '=')
  }

  lemma EqualsNoSpace()
    ensures !IsSpace('=') && !IsSpace('"') && !IsSpace('\'') && !IsSpace('/')
  {
  }

  lemma BareScanned(r: string)
    requires MayFollow(r)
    ensures ScanValue(r) == ValueScan("", 0)
  {
    hide Run, IsSpace;
  }

  lemma EqualsAt(u: string, y: string)
    requires AllChars(u, IsSpace)
    ensures var s := u + "=" + y; Run(s, IsSpace) == |u| && |u| < |s| && s[|u|] == '=' && s[|u| + 1..] == y
  {
    EqualsNoSpace();
    RunIs(u + "=" + y, IsSpace, |u|);
  }

  lemma {:induction false} RunHere(v: string, y: string)
    requires AllChars(v, IsSpace) && StartsUnspaced(y)
    ensures Run(v + y, IsSpace) == |v|
  {
    RunIs(v + y, IsSpace, |v|);
  }

  lemma QuoteHead(s: string, b: nat, quote: char, raw: string, r: string)
    requires b <= |s| && s[b..] == [quote] + raw + [quote] + r
    ensures b < |s| && s[b] == quote && s[b + 1..] == raw + ([quote] + r)
  {
    assert s[b..][0] == s[b] && s[b..][1..] == s[b + 1..];
    assert ([quote] + raw + [quote] + r)[1..] == raw + ([quote] + r);
  }

  lemma {:induction false} QuoteFound(raw: string, quote: char, r: string)
    requires quote !in raw
    ensures IndexOf(raw + ([quote] + r), quote) == Some(|raw|) && |raw| < |raw + ([quote] + r)|
  {
    var t := raw + ([quote] + r);
    assert t[..|raw|] == raw;
    IndexOfIs(t, quote, |raw|);
  }

  lemma SliceOf(s: string, i: nat, n: nat)
    requires i <= |s| && n <= |s[i..]|
    ensures s[i..i + n] == s[i..][..n]
  {
  }

  lemma ScanQuoted(s: string, b: nat, k: nat)
    requires b < |s| && (s[b] == '"' || s[b] == '\'') && IndexOf(s[b + 1..], s[b]) == Some(k) && b + 1 + k <= |s|
    ensures ValueAt(s, b) == ValueScan(s[b + 1..b + 1 + k], b + k + 2)
  {
    hide IndexOf;
  }

  lemma {:induction false} ScanAfter(s: string, a: nat, b: nat)
    requires a == Run(s, IsSpace) && a < |s| && s[a] == '=' && b == a + 1 + Run(s[a + 1..], IsSpace) && b <= |s|
    ensures ScanValue(s) == ValueAt(s, b)
  {
    hide Run, ValueAt;
  }

  lemma ScanUnquoted(s: string, b: nat, k: nat)
    requires b < |s| && s[b] != '"' && s[b] != '\'' && k == Run(s[b..], IsUnquotedChar) && k > 0
    ensures b + k <= |s| && ValueAt(s, b) == ValueScan(s[b..b + k], b + k)
  {
    hide Run;
  }

  lemma {:induction false} BareRun(raw: string, r: string)
    requires AllChars(raw, IsBareChar) && (r != "" ==> IsSpace(r[0]))
    ensures Run(raw + r, IsUnquotedChar) == |raw|
  {
    RunIs(raw + r, IsUnquotedChar, |raw|);
  }

  lemma HeadOf(s: string, b: nat, raw: string, r: string)
    requires b <= |s| && s[b..] == raw + r && raw != ""
    ensures b < |s| && s[b] == raw[0] && |raw| <= |s[b..]|
  {
    assert s[b..][0] == s[b];
  }

  lemma QuotedAt(s: string, b: nat, quote: char, raw: string, r: string)
    requires b <= |s| && s[b..] == [quote] + raw + [quote] + r && quote !in raw && (quote == '"' || quote == '\'')
    ensures ValueAt(s, b) == ValueScan(raw, b + |raw| + 2)
  {
    hide *;
    QuoteHead(s, b, quote, raw, r);
    QuoteFound(raw, quote, r);
    Front(raw, [quote] + r);
    SliceOf(s, b + 1, |raw|);
    ScanQuoted(s, b, |raw|);
  }

  lemma {:induction false} QuotedIs(s: string, a: nat, n: nat, quote: char, raw: string, r: string)
    requires a == Run(s, IsSpace) && a < |s| && s[a] == '=' && n == Run(s[a + 1..], IsSpace) && (quote == '"' || quote == '\'')
    requires a + 1 + n <= |s| && s[a + 1 + n..] == [quote] + raw + [quote] + r && quote !in raw
    ensures ScanValue(s) == ValueScan(raw, a + n + |raw| + 3)
  {
    hide *;
    QuotedAt(s, a + 1 + n, quote, raw, r);
    ScanAfter(s, a, a + 1 + n);
  }

  lemma QuotedText(u: string, v: string, quote: char, raw: string, r: string)
    ensures u + "=" + (v + [quote] + raw + [quote]) + r == u + "=" + (v + ([quote] + raw + [quote] + r))
  {
  }

  lemma QuoteUnspaced(quote: char, y: string)
    requires quote == '"' || quote == '\''
    ensures StartsUnspaced([quote] + y)
  {
    EqualsNoSpace();
  }

  lemma QuoteJoin(quote: char, raw: string, r: string)
    ensures [quote] + raw + [quote] + r == [quote] + (raw + [quote] + r)
  {
  }

  lemma QuotedScanned(f: Form, r: string)
    requires f.Quoted? && IsForm(f)
    ensures ScanValue(FormText(f) + r) == ValueScan(f.raw, |FormText(f)|)
  {
    hide *;
    var x := [f.quote] + f.raw + [f.quote] + r;
    QuotedParts(f);
    QuoteUnspaced(f.quote, f.raw + [f.quote] + r);
    QuotedText(f.u, f.v, f.quote, f.raw, r);
    QuoteJoin(f.quote, f.raw, r);
    EqualsAt(f.u, f.v + x);
    RunHere(f.v, x);
    Past(f.u + "=" + (f.v + x), |f.u| + 1, f.v, x);
    QuotedIs(f.u + "=" + (f.v + x), |f.u|, |f.v|, f.quote, f.raw, r);
  }

  lemma {:induction false} UnquotedIs(s: string, a: nat, n: nat, raw: string, r: string)
    requires a == Run(s, IsSpace) && a < |s| && s[a] == '=' && n == Run(s[a + 1..], IsSpace)
    requires a + 1 + n <= |s| && s[a + 1 + n..] == raw + r && raw != "" && raw[0] != '"' && raw[0] != '\''
    requires AllChars(raw, IsBareChar) && (r != "" ==> IsSpace(r[0]))
    ensures ScanValue(s) == ValueScan(raw, a + 1 + n + |raw|)
  {
    hide *;
    var b := a + 1 + n;
    HeadOf(s, b, raw, r);
    BareRun(raw, r);
    Front(raw, r);
    SliceOf(s, b, |raw|);
    NotEmpty(raw);
    ScanAfter(s, a, b);
    ScanUnquoted(s, b, |raw|);
  }

  lemma NotEmpty(raw: string)
    requires raw != ""
    ensures |raw| > 0
  {
  }

  lemma UnquotedText(u: string, v: string, raw: string, r: string)
    ensures u + "=" + (v + raw) + r == u + "=" + (v + (raw + r))
  {
  }

  lemma UnquotedParts(f: Form, r: string)
    requires f.Unquoted? && IsForm(f) && MayFollow(r)
    ensures AllChars(f.u, IsSpace) && AllChars(f.v, IsSpace) && AllChars(f.raw, IsBareChar)
    ensures f.raw != "" && f.raw[0] != '"' && f.raw[0] != '\'' && (r != "" ==> IsSpace(r[0])) && RawOf(f) == f.raw
    ensures FormText(f) == f.u + "=" + (f.v + f.raw) && |FormText(f)| == |f.u| + 1 + |f.v| + |f.raw|
  {
    hide AllChars, IsSpace, Run;
  }

  lemma QuotedParts(f: Form)
    requires f.Quoted? && IsForm(f)
    ensures AllChars(f.u, IsSpace) && AllChars(f.v, IsSpace) && (f.quote == '"' || f.quote == '\'') && f.quote !in f.raw
    ensures FormText(f) == f.u + "=" + (f.v + [f.quote] + f.raw + [f.quote])
    ensures |FormText(f)| == |f.u| + |f.v| + |f.raw| + 3
  {
    hide AllChars, IsSpace;
  }

  lemma Past(s: string, i: nat, v: string, x: string)
    requires i <= |s| && s[i..] == v + x
    ensures i + |v| <= |s| && s[i + |v|..] == x
  {
    Front(v, x);
    assert s[i..][|v|..] == s[i + |v|..];
  }

  lemma UnquotedScanned(f: Form, r: string)
    requires f.Unquoted? && IsForm(f) && MayFollow(r)
    ensures ScanValue(FormText(f) + r) == ValueScan(f.raw, |FormText(f)|)
  {
    hide *;
    UnquotedParts(f, r);
    BareUnspaced(f.raw, r);
    UnquotedText(f.u, f.v, f.raw, r);
    UnquotedFound(f.u, f.v, f.raw, r);
  }

  lemma UnquotedFound(u: string, v: string, raw: string, r: string)
    requires AllChars(u, IsSpace) && AllChars(v, IsSpace) && AllChars(raw, IsBareChar) && raw != ""
    requires raw[0] != '"' && raw[0] != '\'' && (r != "" ==> IsSpace(r[0])) && StartsUnspaced(raw + r)
    ensures ScanValue(u + "=" + (v + (raw + r))) == ValueScan(raw, |u| + 1 + |v| + |raw|)
  {
    hide *;
    var x := raw + r;
    var s := u + "=" + (v + x);
    EqualsAt(u, v + x);
    RunHere(v, x);
    Past(s, |u| + 1, v, x);
    UnquotedIs(s, |u|, |v|, raw, r);
  }

  lemma BareUnspaced(raw: string, r: string)
    requires raw != "" && AllChars(raw, IsBareChar)
    ensures StartsUnspaced(raw + r)
  {
  }

  lemma FormScanned(f: Form, r: string)
    requires IsForm(f) && MayFollow(r)
    ensures ScanValue(FormText(f) + r) == ValueScan(RawOf(f), |FormText(f)|)
  {
    hide ScanValue, IsForm, MayFollow;
    match f {
      case Bare =>
        assert "" + r == r;
        BareScanned(r);
      case Quoted(_, _, _, _) => QuotedScanned(f, r);
      case Unquoted(_, _, _) => UnquotedScanned(f, r);
    }
  }

  lemma NameParts(name: string)
    requires AllChars(name, IsNamePart)
    ensures AllChars(name, IsAttrNameChar)
  {
  }

  lemma {:induction false} GapSkipped(gap: string, x: string)
    requires AllChars(gap, IsGapChar)
    ensures ScanAttrs(gap + x) == ScanAttrs(x)
  {
    if gap == "" {
      assert gap + x == x;
    } else {
      hide ScanAttrs;
      TailConcat(gap, x);
      GapNoName(gap[0]);
      ScanNext(gap + x);
      GapSkipped(gap[1..], x);
    }
  }

  lemma GapNoName(c: char)
    requires IsGapChar(c)
    ensures !IsAttrNameChar(c)
  {
  }

  lemma {:induction false} ScanNext(s: string)
    requires s != "" && !IsAttrNameChar(s[0])
    ensures ScanAttrs(s) == ScanAttrs(s[1..])
  {
  }

  lemma {:induction false} GapFollowed(gap: string, x: string)
    requires AllChars(gap, IsGapChar) && (x != "" ==> IsNamePart(x[0]))
    ensures var r := gap + x; var n := Run(r, IsSpace); n < |r| ==> r[n] != '='
  {
    var r := gap + x;
    var n := Run(r, IsSpace);
    assert x != "" ==> r[|gap|] == x[0];
    assert n <= |gap|;
    hide Run;
    if n < |gap| {
      assert r[n] == gap[n];
    }
  }

  lemma GapMayFollow(gap: string, x: string)
    requires IsGap(gap) && (x != "" ==> IsNamePart(x[0]))
    ensures MayFollow(gap + x)
  {
    GapFollowed(gap, x);
    hide Run;
  }

  /** What may end the attributes. */
  predicate IsTrail(tail: string) {
    tail == "" || IsGap(tail)
  }

  lemma TrailMayFollow(tail: string)
    requires IsTrail(tail)
    ensures MayFollow(tail)
  {
    if tail != "" {
      assert tail + "" == tail;
      GapMayFollow(tail, "");
    }
  }

  lemma {:induction false} RestMayFollow(ws: seq<Written>, tag: string, tail: string)
    requires AreWritten(ws, tag) && IsTrail(tail)
    ensures MayFollow(WrittenAll(ws) + tail)
  {
    hide IsFate, MayFollow, IsForm, IsGap, Lower, DecodeEntities, AllChars, IsNamePart, FormText;
    if ws == [] {
      assert WrittenAll(ws) + tail == tail;
      TrailMayFollow(tail);
    } else {
      assert IsWritten(ws[0], tag);
      var x := ws[0].name + FormText(ws[0].form) + WrittenAll(ws[1..]) + tail;
      assert WrittenAll(ws) + tail == ws[0].gap + x;
      FirstPart(ws[0].name);
      assert x[0] == ws[0].name[0];
      GapMayFollow(ws[0].gap, x);
    }
  }

  lemma FirstPart(name: string)
    requires name != "" && AllChars(name, IsNamePart)
    ensures IsNamePart(name[0])
  {
  }

  lemma {:induction false} WrittenParts(ws: seq<Written>, tail: string)
    requires ws != []
    ensures WrittenAll(ws) + tail == ws[0].gap + (ws[0].name + (FormText(ws[0].form) + (WrittenAll(ws[1..]) + tail)))
  {
    hide FormText;
  }

  lemma EmptyForm(f: Form, r: string)
    requires FormText(f) + r == ""
    ensures f.Bare? && r == "" && RawOf(f) == ""
  {
  }

  lemma Nothing(s: string)
    ensures s + "" == s
  {
  }

  lemma {:induction false} OneScanned(name: string, f: Form, r: string)
    requires name != "" && AllChars(name, IsNamePart) && IsForm(f) && MayFollow(r)
    ensures ScanAttrs(name + (FormText(f) + r)) == [RawAttr(name, RawOf(f))] + ScanAttrs(r)
  {
    hide *;
    var tail := FormText(f) + r;
    NameParts(name);
    FormScanned(f, r);
    Front(FormText(f), r);
    FormStarts(f, r);
    if tail == "" {
      NameAlone(name);
      EmptyForm(f, r);
      Nothing(name);
    } else {
      ScanNameAndValue(RawAttr(name, RawOf(f)), tail, |FormText(f)|);
    }
  }

  lemma FormStarts(f: Form, r: string)
    requires IsForm(f) && MayFollow(r)
    ensures var t := FormText(f) + r; t != "" ==> !IsAttrNameChar(t[0])
    ensures f.Bare? || FormText(f) != ""
  {
    hide Run;
    if !f.Bare? && f.u != "" {
      assert IsSpace(f.u[0]);
    }
  }

  lemma {:induction false} NameAlone(name: string)
    requires name != "" && AllChars(name, IsAttrNameChar)
    ensures ScanAttrs(name) == [RawAttr(name, "")] + ScanAttrs("")
  {
    RunIs(name, IsAttrNameChar, |name|);
    assert name[|name|..] == "" && name[..|name|] == name;
  }

  lemma {:induction false} ScannedAsWritten(ws: seq<Written>, tag: string, tail: string)
    requires AreWritten(ws, tag) && IsTrail(tail)
    ensures ScanAttrs(WrittenAll(ws) + tail) == RawsOf(ws)
  {
    hide ScanAttrs, IsFate, MayFollow, IsForm, Lower, DecodeEntities, AllChars, FormText, WrittenAll;
    if ws == [] {
      NoneWritten(tail);
      TrailIsGap(tail);
      assert tail + "" == tail;
      GapSkipped(tail, "");
      NothingScanned();
    } else {
      assert IsWritten(ws[0], tag);
      var r := WrittenAll(ws[1..]) + tail;
      RestMayFollow(ws[1..], tag, tail);
      WrittenParts(ws, tail);
      GapSkipped(ws[0].gap, ws[0].name + (FormText(ws[0].form) + r));
      OneScanned(ws[0].name, ws[0].form, r);
      ScannedAsWritten(ws[1..], tag, tail);
    }
  }

  lemma NoneWritten(tail: string)
    ensures WrittenAll([]) + tail == tail
  {
  }

  lemma TrailIsGap(tail: string)
    requires IsTrail(tail)
    ensures AllChars(tail, IsGapChar)
  {
  }

  lemma NothingScanned()
    ensures ScanAttrs("") == []
  {
  }

  // ---- What is left of them

  lemma KeptNames()
    ensures KEPT_NAMES == ALLOWED_ATTRS
  {
  }

  function Printed(attrs: seq<Attr>): string {
    RenderRaws(Attributes.Escaped(attrs))
  }

  lemma PrintedCons(a: Attr, attrs: seq<Attr>)
    ensures Printed([a] + attrs) == " " + a.name + "=\"" + EscapeAttr(a.value) + "\"" + Printed(attrs)
  {
    hide EscapeAttr;
    assert Attributes.Escaped([a] + attrs) == [RawAttr(a.name, EscapeAttr(a.value))] + Attributes.Escaped(attrs);
    assert ([RawAttr(a.name, EscapeAttr(a.value))] + Attributes.Escaped(attrs))[1..] == Attributes.Escaped(attrs);
  }

  lemma WrittenCons(ws: seq<Written>, tag: string)
    requires ws != [] && AreWritten(ws, tag)
    ensures AreWritten(ws[1..], tag) && IsFate(tag, Lower(ws[0].name), DecodeEntities(RawOf(ws[0].form)), ws[0].fate)
  {
    hide IsFate, IsForm, IsGap, Lower, DecodeEntities, AllChars;
    assert IsWritten(ws[0], tag);
  }

  lemma {:induction false} KeptStep(tag: string, ws: seq<Written>, seen: set<string>)
    requires ws != []
    ensures var name, more := Lower(ws[0].name), RawsOf(ws[1..]);
      KeepAttrs(tag, RawsOf(ws), seen) ==
        if name !in ALLOWED_ATTRS || name in seen then KeepAttrs(tag, more, seen)
        else match KeepValue(tag, name, DecodeEntities(RawOf(ws[0].form)))
          case None => KeepAttrs(tag, more, seen + {name})
          case Some(v) => [Attr(name, v)] + KeepAttrs(tag, more, seen + {name})
  {
    hide KeepValue, DecodeEntities, Lower, ALLOWED_ATTRS;
    assert RawsOf(ws)[0] == RawAttr(ws[0].name, RawOf(ws[0].form)) && RawsOf(ws)[1..] == RawsOf(ws[1..]);
  }

  lemma {:induction false} NothingKept(tag: string, seen: set<string>)
    ensures Printed(KeepAttrs(tag, RawsOf([]), seen)) == ""
  {
  }

  lemma {:induction false} ShownIs(tag: string, ws: seq<Written>, seen: set<string>)
    requires AreWritten(ws, tag)
    ensures Printed(KeepAttrs(tag, RawsOf(ws), seen)) == Shown(ws, seen)
  {
    hide KeepAttrs, KeepValue, RawsOf, IsFate, AreWritten, Lower, DecodeEntities, EscapeAttr, ALLOWED_ATTRS, KEPT_NAMES, Printed;
    if ws == [] {
      NothingKept(tag, seen);
    } else {
      KeptNames();
      WrittenCons(ws, tag);
      var name := Lower(ws[0].name);
      FateIff(tag, name, DecodeEntities(RawOf(ws[0].form)), ws[0].fate);
      KeptStep(tag, ws, seen);
      ShownIs(tag, ws[1..], seen);
      ShownIs(tag, ws[1..], seen + {name});
      var more := KeepAttrs(tag, RawsOf(ws[1..]), seen + {name});
      assert "" + Printed(more) == Printed(more);
      if ws[0].fate.Some? {
        PrintedCons(Attr(name, ws[0].fate.value), more);
      }
    }
  }

  lemma HrefName()
    ensures "href" in ALLOWED_ATTRS
  {
  }

  lemma HrefCons(a: Attr, attrs: seq<Attr>)
    ensures HasHref([a] + attrs) <==> a.name == "href" || HasHref(attrs)
  {
    var all := [a] + attrs;
    if HasHref(attrs) {
      var i :| 0 <= i < |attrs| && attrs[i].name == "href";
      assert all[i + 1].name == "href";
    }
    if a.name == "href" {
      assert all[0].name == "href";
    }
    if i :| 0 <= i < |all| && all[i].name == "href" {
      if i > 0 {
        assert attrs[i - 1].name == "href";
      }
    }
  }

  lemma {:induction false} HrefSeen(tag: string, ws: seq<Written>, seen: set<string>)
    requires "href" in seen
    ensures !HasHref(KeepAttrs(tag, RawsOf(ws), seen))
  {
    hide KeepAttrs, KeepValue, RawsOf, Lower, DecodeEntities, ALLOWED_ATTRS, HasHref;
    if ws == [] {
      NothingLinked(tag, seen);
    } else {
      var name := Lower(ws[0].name);
      KeptStep(tag, ws, seen);
      HrefSeen(tag, ws[1..], seen);
      HrefSeen(tag, ws[1..], seen + {name});
      var v := KeepValue(tag, name, DecodeEntities(RawOf(ws[0].form)));
      if v.Some? {
        HrefCons(Attr(name, v.value), KeepAttrs(tag, RawsOf(ws[1..]), seen + {name}));
      }
    }
  }

  lemma {:induction false} NothingLinked(tag: string, seen: set<string>)
    ensures !HasHref(KeepAttrs(tag, RawsOf([]), seen))
  {
  }

  lemma {:induction false} LinkKept(tag: string, ws: seq<Written>, seen: set<string>)
    requires AreWritten(ws, tag) && "href" !in seen
    ensures HasHref(KeepAttrs(tag, RawsOf(ws), seen)) <==> KeepsLink(ws)
  {
    hide KeepAttrs, KeepValue, RawsOf, Lower, DecodeEntities, ALLOWED_ATTRS, HasHref, IsFate, AreWritten;
    if ws == [] {
      NothingLinked(tag, seen);
    } else {
      var name := Lower(ws[0].name);
      HrefName();
      WrittenCons(ws, tag);
      FateIff(tag, name, DecodeEntities(RawOf(ws[0].form)), ws[0].fate);
      KeptStep(tag, ws, seen);
      var more := KeepAttrs(tag, RawsOf(ws[1..]), seen + {name});
      if ws[0].fate.Some? {
        HrefCons(Attr(name, ws[0].fate.value), more);
      }
      if name == "href" {
        HrefSeen(tag, ws[1..], seen + {name});
      } else {
        LinkKept(tag, ws[1..], seen);
        LinkKept(tag, ws[1..], seen + {name});
      }
    }
  }

  lemma TwoRaws(a: RawAttr, b: RawAttr)
    ensures RenderRaws([a, b]) == " " + a.name + "=\"" + a.raw + "\"" + (" " + b.name + "=\"" + b.raw + "\"")
  {
    assert [a, b][1..] == [b] && [b][1..] == [];
    assert RenderRaws([b]) == RenderRaw(b) + RenderRaws([]);
    assert RenderRaws([b]) == RenderRaw(b);
  }

  lemma LinkNamesText()
    ensures " " + "target" + "=\"" == " target=\"" && "\"" + (" " + "rel" + "=\"") == "\" rel=\""
  {
  }

  lemma LinkParts(a: string, x: string, b: string, y: string, p: string, q: string)
    requires " " + a + "=\"" == p && "\"" + (" " + b + "=\"") == q
    ensures " " + a + "=\"" + x + "\"" + (" " + b + "=\"" + y + "\"") == p + x + (q + y + "\"")
  {
  }

  lemma LinkIs()
    ensures LINK == " target=\"" + "_blank" + ("\" rel=\"" + "noopener noreferrer" + "\"")
    ensures LINK_RAWS == [RawAttr("target", "_blank"), RawAttr("rel", "noopener noreferrer")]
  {
  }

  lemma LinkText()
    ensures RenderRaws(LINK_RAWS) == LINK
  {
    hide *;
    var a, b := RawAttr("target", "_blank"), RawAttr("rel", "noopener noreferrer");
    TwoRaws(a, b);
    LinkNamesText();
    LinkParts(a.name, a.raw, b.name, b.raw, " target=\"", "\" rel=\"");
    LinkIs();
  }

  lemma {:induction false} CleanedIs(tag: string, source: string)
    ensures var attrs := KeepAttrs(tag, ScanAttrs(source), {});
      CleanedAttributes(tag, source) == Printed(attrs) + if tag == "a" && HasHref(attrs) then RenderRaws(LINK_RAWS) else ""
  {
    hide KeepAttrs, ScanAttrs, HasHref, RenderRaws, LINK_RAWS, Attributes.Escaped;
    var attrs := KeepAttrs(tag, ScanAttrs(source), {});
    if tag == "a" && HasHref(attrs) {
      RenderRawsConcat(Attributes.Escaped(attrs), LINK_RAWS);
    } else {
      assert Attributes.Escaped(attrs) + [] == Attributes.Escaped(attrs);
    }
  }

  /** Attributes as written: of every allowed name the first is kept, with the
      value the rules leave, and a kept link opens in a new window. */
  lemma {:induction false} AttributesKept(tag: string, ws: seq<Written>, tail: string)
    requires AreWritten(ws, tag) && IsTrail(tail)
    ensures CleanedAttributes(tag, WrittenAll(ws) + tail)
         == Shown(ws, {}) + if tag == "a" && KeepsLink(ws) then LINK else ""
  {
    hide *;
    CleanedIs(tag, WrittenAll(ws) + tail);
    ScannedAsWritten(ws, tag, tail);
    ShownIs(tag, ws, {});
    LinkKept(tag, ws, {});
    LinkText();
  }
}
