/** What `dropHiddenElements` takes away. */
module HiddenElements {
  import opened Strings
  import opened Sanitizer
  import opened QuotedText

  /** `a` is `s` with some characters left out. */
  predicate IsSubsequence(a: string, s: string) {
    if a == "" then true
    else if s == "" then false
    else (a[0] == s[0] && IsSubsequence(a[1..], s[1..])) || IsSubsequence(a, s[1..])
  }

  lemma {:induction false} SubsequenceKeeps(head: string, a: string, s: string)
    requires IsSubsequence(a, s)
    ensures IsSubsequence(head + a, head + s)
  {
    if head == "" {
      assert head + a == a && head + s == s;
    } else {
      assert (head + a)[1..] == head[1..] + a && (head + s)[1..] == head[1..] + s;
      SubsequenceKeeps(head[1..], a, s);
    }
  }

  lemma {:induction false} SubsequenceSkips(head: string, a: string, s: string)
    requires IsSubsequence(a, s)
    ensures IsSubsequence(a, head + s)
  {
    if head == "" {
      assert head + s == s;
    } else {
      assert (head + s)[1..] == head[1..] + s;
      SubsequenceSkips(head[1..], a, s);
    }
  }

  lemma {:induction false} SubsequenceSplit(s: string, n: nat, a: string)
    requires n <= |s| && IsSubsequence(a, s[n..])
    ensures IsSubsequence(a, s) && IsSubsequence(s[..n] + a, s)
  {
    assert s == s[..n] + s[n..];
    SubsequenceSkips(s[..n], a, s[n..]);
    SubsequenceKeeps(s[..n], a, s[n..]);
  }

  /** Whatever the input, characters are only left out. */
  lemma {:induction false} OnlyDeletes(s: string)
    ensures IsSubsequence(WithoutHidden(s), s)
    decreases |s|
  {
    if s == "" {
      assert WithoutHidden(s) == "";
    } else {
      WithoutHiddenStep(s);
      hide OpenerAt, IsHidden, HiddenLength, IsSubsequence, WithoutHidden;
      var n := match OpenerAt(s)
        case None => 1
        case Some(o) => if IsHidden(o) then HiddenLength(s, o) else o.length;
      OnlyDeletes(s[n..]);
      SubsequenceSplit(s, n, WithoutHidden(s[n..]));
    }
  }

  // ---- Text whose angle brackets only delimit tags

  datatype Item =
    | Text(c: char)
    | Element(inner: string)

  /** The whole of a tag. */
  function Angled(inner: string): (s: string)
    ensures |s| == |inner| + 2
  {
    "<" + inner + ">"
  }

  function ItemText(it: Item): (s: string)
    ensures s != ""
  {
    match it
    case Text(c) => [c]
    case Element(inner) => Angled(inner)
  }

  function ItemsText(items: seq<Item>): string {
    if items == [] then "" else ItemText(items[0]) + ItemsText(items[1..])
  }

  predicate IsNoBracket(c: char) {
    c != '<' && c != '>'
  }

  /** A quoted style that opens at the head of `s` closes in `s`. */
  predicate StyleCloses(s: string) {
    match StyleQuote(s)
    case None => true
    case Some(b) => s[b] in s[b + 1..]
  }

  /** The last `\bstyle\s*=\s*["']` of a tag whose name ends at `k`. */
  function LastQuote(t: string, k: nat, q: nat): (p: Option<nat>)
    requires 0 < k && k + q <= |t|
    ensures p.Some? ==> k <= p.value <= k + q && StyleQuote(t[p.value..]).Some?
  {
    if !IsWordChar(t[k + q - 1]) && StyleQuote(t[k + q..]).Some? then Some(k + q)
    else if q == 0 then None
    else LastQuote(t, k, q - 1)
  }

  /** The last quoted style of `t`, an opening tag without its `>`. */
  function TagQuote(t: string): (p: Option<nat>)
    ensures p.Some? ==> 0 < p.value <= |t| && StyleQuote(t[p.value..]).Some?
  {
    if |t| < 2 || t[0] != '<' || !IsLetter(t[1]) then None else
    var k := 1 + Run(t[1..], IsAlnum);
    if k < |t| && t[k] == '_' then None else LastQuote(t, k, |t| - k)
  }

  /** The last quoted style of an opening tag, if any, closes in the tag. */
  predicate ClosesLast(t: string) {
    TagQuote(t).Some? ==> StyleCloses(t[TagQuote(t).value..])
  }

  predicate IsItem(it: Item) {
    match it
    case Text(c) => IsNoBracket(c)
    case Element(inner) => AllChars(inner, IsNoBracket) && ClosesLast("<" + inner)
  }

  predicate AreItems(items: seq<Item>) {
    forall i | 0 <= i < |items| :: IsItem(items[i])
  }

  /** The brackets only delimit tags, whatever the tags say. */
  predicate IsBare(it: Item) {
    match it
    case Text(c) => IsNoBracket(c)
    case Element(inner) => AllChars(inner, IsNoBracket)
  }

  predicate AreBare(items: seq<Item>) {
    forall i | 0 <= i < |items| :: IsBare(items[i])
  }

  lemma ItemsAreBare(items: seq<Item>)
    requires AreItems(items)
    ensures AreBare(items)
  {
    hide AllChars, ClosesLast;
    forall i | 0 <= i < |items| ensures IsBare(items[i]) {
      assert IsItem(items[i]);
    }
  }

  /** The tag's opener: its name and its last style. */
  function ItemOpener(it: Item): Option<Opener> {
    if it.Text? then None else OpenerAt(Angled(it.inner))
  }

  predicate IsHiding(it: Item) {
    ItemOpener(it).Some? && IsHidden(ItemOpener(it).value)
  }

  // ---- A tag is scanned within its own brackets

  lemma {:induction false} RunWithin(t: string, x: string, p: char -> bool)
    requires x == "" || !p(x[0])
    ensures Run(t + x, p) == Run(t, p)
  {
    var k := Run(t, p);
    if k < |t| {
      assert (t + x)[k] == t[k];
    }
    assert forall i | 0 <= i < k :: (t + x)[i] == t[i];
    RunIs(t + x, p, k);
  }

  lemma PrefixSlice(t: string, x: string, i: nat, j: nat)
    requires i <= j <= |t|
    ensures (t + x)[i..j] == t[i..j]
  {
  }

  lemma RunSlice(t: string, x: string, i: nat, p: char -> bool)
    requires i <= |t|
    requires x == "" || !p(x[0])
    ensures Run((t + x)[i..], p) == Run(t[i..], p)
  {
    assert (t + x)[i..] == t[i..] + x;
    RunWithin(t[i..], x, p);
  }

  lemma StyleStart(t: string, x: string)
    requires x != "" && x[0] == '>'
    ensures StartsWithFold(t + x, "style") == StartsWithFold(t, "style")
  {
    if |t| >= 5 {
      assert (t + x)[..5] == t[..5];
    } else if |t + x| >= 5 {
      var f := Fold((t + x)[..5]);
      assert f[|t|] == '>';
      assert forall i | 0 <= i < 5 :: "style"[i] != '>';
    }
  }

  lemma StyleQuoteWithin(t: string, x: string)
    requires x != "" && x[0] == '>'
    ensures StyleQuote(t + x) == StyleQuote(t)
  {
    hide StartsWithFold, AfterBlank, IsAt;
    StyleStart(t, x);
    if StartsWithFold(t, "style") {
      AfterBlankWithin(t, x, 5);
      var a := AfterBlank(t, 5);
      IsAtWithin(t, x, a, '=');
      if IsAt(t, a, '=') {
        assert a < |t| by { IsAtIndex(t, a, '='); }
        AfterBlankWithin(t, x, a + 1);
        IsAtWithin(t, x, AfterBlank(t, a + 1), '"');
        IsAtWithin(t, x, AfterBlank(t, a + 1), '\'');
      }
    }
  }

  lemma AfterBlankWithin(t: string, x: string, i: nat)
    requires i <= |t| && x != "" && x[0] == '>'
    ensures AfterBlank(t + x, i) == AfterBlank(t, i)
  {
    RunSlice(t, x, i, IsSpace);
  }

  lemma IsAtWithin(t: string, x: string, i: nat, c: char)
    requires i <= |t| && x != "" && x[0] == '>' && c != '>'
    ensures IsAt(t + x, i, c) == IsAt(t, i, c)
  {
  }

  lemma IsAtIndex(t: string, i: nat, c: char)
    requires IsAt(t, i, c)
    ensures i < |t|
  {
  }

  lemma {:induction false} IndexOfWithin(t: string, x: string, c: char)
    requires c in t
    ensures IndexOf(t + x, c) == IndexOf(t, c)
  {
    var k := IndexOf(t, c).value;
    assert (t + x)[..k] == t[..k];
    IndexOfIs(t + x, c, k);
  }

  lemma TagEnd(t: string, x: string, i: nat)
    requires AllChars(t, IsNotTagEnd) && i <= |t|
    requires x != "" && x[0] == '>'
    ensures IndexOf((t + x)[i..], '>') == Some(|t| - i)
  {
    var s := (t + x)[i..];
    assert s == t[i..] + x;
    assert '>' !in t[i..];
    assert s[..|t| - i] == t[i..];
    IndexOfIs(s, '>', |t| - i);
  }

  /** The style at the head of `t`, the rest of a tag, whatever follows it. */
  lemma StyleAtWithin(t: string, x: string, y: string)
    requires AllChars(t, IsNotTagEnd) && StyleCloses(t)
    requires x != "" && x[0] == '>' && y != "" && y[0] == '>'
    ensures StyleAt(t + x) == StyleAt(t + y)
    ensures StyleAt(t + x).Some? ==> StyleAt(t + x).value.length == |t| + 1
  {
    StyleAtEnds(t, x);
    StyleAtEnds(t, y);
    hide StyleAt, StyleQuote, StyleCloses;
  }

  lemma StyleAtEnds(t: string, x: string)
    requires AllChars(t, IsNotTagEnd) && StyleCloses(t)
    requires x != "" && x[0] == '>'
    ensures StyleQuote(t).None? ==> StyleAt(t + x).None?
    ensures StyleQuote(t).Some? ==>
      var b := StyleQuote(t).value;
      StyleAt(t + x) == Some(Opener("", t[b..b + IndexOf(t[b + 1..], t[b]).value + 2], |t| + 1))
  {
    hide StyleQuote, StyleAt, IndexOf, AllChars;
    StyleQuoteWithin(t, x);
    if StyleQuote(t).None? {
      StyleNone(t + x);
    } else {
      var b := StyleQuote(t).value;
      var e := b + IndexOf(t[b + 1..], t[b]).value + 2;
      StyleSlices(t, x, b);
      TagEnd(t, x, e);
      StyleAtIs(t + x, b, e, |t| - e);
    }
  }

  lemma StyleNone(s: string)
    requires StyleQuote(s).None?
    ensures StyleAt(s).None?
  {
  }

  lemma StyleAtIs(s: string, b: nat, e: nat, j: nat)
    requires StyleQuote(s) == Some(b) && b + 2 <= e <= |s|
    requires IndexOf(s[b + 1..], s[b]) == Some(e - b - 2) && IndexOf(s[e..], '>') == Some(j)
    ensures StyleAt(s) == Some(Opener("", s[b..e], e + j + 1))
  {
    hide StyleQuote, IndexOf;
  }

  lemma StyleSlices(t: string, x: string, b: nat)
    requires b < |t| && t[b] in t[b + 1..]
    ensures IndexOf((t + x)[b + 1..], (t + x)[b]) == IndexOf(t[b + 1..], t[b])
    ensures var e := b + IndexOf(t[b + 1..], t[b]).value + 2;
      e <= |t| && (t + x)[b..e] == t[b..e]
  {
    assert (t + x)[b + 1..] == t[b + 1..] + x;
    IndexOfWithin(t[b + 1..], x, t[b]);
  }

  /** The quoted style at `i`, as part of the whole of `s`. */
  function StyleFrom(s: string, i: nat): (r: Option<Opener>)
    requires i <= |s|
    ensures r.Some? ==> i <= r.value.length <= |s|
  {
    match StyleAt(s[i..])
    case None => None
    case Some(o) => Some(Opener("", o.style, i + o.length))
  }

  lemma LastStyleStep(s: string, k: nat, q: nat)
    requires 0 < k && k + q <= |s|
    ensures LastStyle(s, k, q) ==
      if !IsWordChar(s[k + q - 1]) && StyleFrom(s, k + q).Some? then StyleFrom(s, k + q)
      else if q == 0 then None
      else LastStyle(s, k, q - 1)
  {
    hide StyleAt;
  }

  lemma LastQuoteStep(t: string, k: nat, q: nat)
    requires 0 < k && k + q <= |t|
    ensures LastQuote(t, k, q) ==
      if !IsWordChar(t[k + q - 1]) && StyleQuote(t[k + q..]).Some? then Some(k + q)
      else if q == 0 then None
      else LastQuote(t, k, q - 1)
  {
    hide StyleQuote;
  }

  lemma NoQuoteNoStyle(t: string, x: string, i: nat)
    requires 0 < i <= |t| && x != "" && x[0] == '>'
    ensures (t + x)[i - 1] == t[i - 1]
    ensures StyleQuote(t[i..]).None? ==> StyleFrom(t + x, i).None?
  {
    assert (t + x)[i..] == t[i..] + x;
    StyleQuoteWithin(t[i..], x);
    hide StyleQuote;
  }

  /** The style found is that of the last quote, if that one closes at all. */
  lemma {:induction false} LastStyleFollows(t: string, x: string, k: nat, q: nat)
    requires 0 < k && k + q <= |t| && x != "" && x[0] == '>'
    ensures LastQuote(t, k, q).None? ==> LastStyle(t + x, k, q).None?
    ensures LastQuote(t, k, q).Some? && StyleFrom(t + x, LastQuote(t, k, q).value).Some? ==>
      LastStyle(t + x, k, q) == StyleFrom(t + x, LastQuote(t, k, q).value)
  {
    hide StyleQuote, StyleFrom, LastStyle, LastQuote, IsWordChar;
    NoQuoteNoStyle(t, x, k + q);
    LastStyleStep(t + x, k, q);
    LastQuoteStep(t, k, q);
    if q > 0 {
      LastStyleFollows(t, x, k, q - 1);
    }
  }

  function TagName(t: string): string
    requires t != ""
  {
    Fold(t[1..1 + Run(t[1..], IsAlnum)])
  }

  /** What opens at a tag's `<` is what its last quoted style says. */
  lemma OpenerFollows(t: string, x: string)
    requires t != "" && AllChars(t, IsNotTagEnd) && x != "" && x[0] == '>'
    ensures TagQuote(t).None? ==> OpenerAt(t + x).None?
    ensures TagQuote(t).Some? && StyleFrom(t + x, TagQuote(t).value).Some? ==>
      var o := StyleFrom(t + x, TagQuote(t).value).value;
      OpenerAt(t + x) == Some(Opener(TagName(t), o.style, o.length))
  {
    hide *;
    var k := 1 + Run(t[1..], IsAlnum);
    OpenerOfTag(t, x, k);
    TagQuoteIs(t, k);
    if OpensTag(t, k) {
      var q := |t| - k;
      LastStyleFollows(t, x, k, q);
      assert TagQuote(t) == LastQuote(t, k, q);
      if TagQuote(t).Some? && StyleFrom(t + x, TagQuote(t).value).Some? {
        var o := StyleFrom(t + x, TagQuote(t).value).value;
        assert LastStyle(t + x, k, q) == Some(o);
        assert 0 < TagQuote(t).value <= o.length;
      }
    }
  }

  /** `t` starts with an opening tag's `<` and its name, which ends at `k`. */
  predicate OpensTag(t: string, k: nat) {
    |t| >= 2 && t[0] == '<' && IsLetter(t[1]) && (k < |t| ==> t[k] != '_')
  }

  lemma {:induction false} TagQuoteIs(t: string, k: nat)
    requires t != "" && k == 1 + Run(t[1..], IsAlnum)
    ensures TagQuote(t) == if OpensTag(t, k) then LastQuote(t, k, |t| - k) else None
  {
    hide Run, LastQuote, StyleQuote, IsLetter, IsAlnum;
  }

  lemma {:induction false} OpenerOfTag(t: string, x: string, k: nat)
    requires t != "" && AllChars(t, IsNotTagEnd) && x != "" && x[0] == '>' && k == 1 + Run(t[1..], IsAlnum)
    ensures OpenerAt(t + x) ==
      if !OpensTag(t, k) then None
      else match LastStyle(t + x, k, |t| - k)
        case None => None
        case Some(o) => if o.length == 0 then None else Some(Opener(TagName(t), o.style, o.length))
  {
    hide Run, AllChars, LastStyle, OpenerAt, Fold, IsLetter;
    TagRuns(t, x, k);
    OpenerIs(t + x, k);
    TagHead(t, x, k);
  }

  lemma TagRuns(t: string, x: string, k: nat)
    requires t != "" && AllChars(t, IsNotTagEnd) && x != "" && x[0] == '>' && k == 1 + Run(t[1..], IsAlnum)
    ensures Run((t + x)[1..], IsAlnum) == k - 1 && (t + x)[1..k] == t[1..k]
    ensures Run((t + x)[k..], IsNotTagEnd) == |t| - k
  {
    RunSlice(t, x, 1, IsAlnum);
    BodyRun(t, x, k);
    PrefixSlice(t, x, 1, k);
    hide Run, AllChars;
  }

  lemma TagHead(t: string, x: string, k: nat)
    requires t != "" && x != "" && x[0] == '>' && k <= |t|
    ensures (t + x)[0] == t[0] && (t + x)[1] == (if |t| > 1 then t[1] else '>')
    ensures (t + x)[k] == (if k < |t| then t[k] else '>')
  {
  }

  /** What opens at a tag's `<` is decided by the tag alone. */
  lemma OpenerWithin(t: string, x: string, y: string)
    requires t != "" && AllChars(t, IsNotTagEnd) && ClosesLast(t)
    requires x != "" && x[0] == '>' && y != "" && y[0] == '>'
    ensures OpenerAt(t + x) == OpenerAt(t + y)
    ensures OpenerAt(t + x).Some? ==> OpenerAt(t + x).value.length == |t| + 1
  {
    hide OpenerAt, TagQuote, StyleFrom, AllChars, StyleCloses;
    OpenerFollows(t, x);
    OpenerFollows(t, y);
    if TagQuote(t).Some? {
      StyleFromWithin(t, x, y, TagQuote(t).value);
    }
  }

  lemma StyleFromWithin(t: string, x: string, y: string, p: nat)
    requires AllChars(t, IsNotTagEnd) && p <= |t| && StyleQuote(t[p..]).Some? && StyleCloses(t[p..])
    requires x != "" && x[0] == '>' && y != "" && y[0] == '>'
    ensures StyleFrom(t + x, p).Some? && StyleFrom(t + x, p) == StyleFrom(t + y, p)
    ensures StyleFrom(t + x, p).value.length == |t| + 1
  {
    hide StyleAt, StyleQuote, StyleCloses, AllChars;
    var u := t[p..];
    assert (t + x)[p..] == u + x && (t + y)[p..] == u + y;
    assert AllChars(u, IsNotTagEnd) by { TailFree(t, p); }
    StyleAtWithin(u, x, y);
    StyleAtSome(u, x);
  }

  lemma TailFree(t: string, p: nat)
    requires AllChars(t, IsNotTagEnd) && p <= |t|
    ensures AllChars(t[p..], IsNotTagEnd)
  {
  }

  lemma StyleAtSome(u: string, x: string)
    requires AllChars(u, IsNotTagEnd) && StyleQuote(u).Some? && StyleCloses(u) && x != "" && x[0] == '>'
    ensures StyleAt(u + x).Some?
  {
    StyleAtEnds(u, x);
    hide StyleAt, StyleQuote, StyleCloses;
  }

  lemma {:induction false} OpenerIs(s: string, k: nat)
    requires |s| >= 2 && k == 1 + Run(s[1..], IsAlnum)
    ensures OpenerAt(s) ==
      if s[0] != '<' || !IsLetter(s[1]) || (k < |s| && s[k] == '_') then None
      else match LastStyle(s, k, Run(s[k..], IsNotTagEnd))
        case None => None
        case Some(o) => if o.length == 0 then None else Some(Opener(Fold(s[1..k]), o.style, o.length))
  {
    hide Run, LastStyle, Fold;
  }

  lemma BodyRun(t: string, x: string, k: nat)
    requires AllChars(t, IsNotTagEnd) && k <= |t|
    requires x != "" && x[0] == '>'
    ensures Run((t + x)[k..], IsNotTagEnd) == |t| - k
  {
    RunSlice(t, x, k, IsNotTagEnd);
    RunIs(t[k..], IsNotTagEnd, |t| - k);
  }

  lemma TagBody(inner: string)
    requires AllChars(inner, IsNoBracket)
    ensures AllChars("<" + inner, IsNotTagEnd)
  {
  }

  lemma ItemOpens(it: Item, r: string)
    requires it.Element? && IsItem(it)
    ensures OpenerAt(ItemText(it) + r) == ItemOpener(it)
    ensures ItemOpener(it).Some? ==> ItemOpener(it).value.length == |ItemText(it)|
  {
    TagBody(it.inner);
    var t := "<" + it.inner;
    assert ItemText(it) + r == t + (">" + r) && Angled(it.inner) == t + ">";
    hide OpenerAt, AllChars, ClosesLast;
    OpenerWithin(t, ">" + r, ">");
  }

  // ---- Where an element ends

  predicate Closes(it: Item, tag: string) {
    it.Element? && NamedTag(Angled(it.inner), Required, {tag}).Some?
  }

  predicate Opens(it: Item, tag: string) {
    it.Element? && NamedTag(Angled(it.inner), Without, {tag}).Some?
  }

  /** Closing tags of `tag` less opening ones. */
  function Excess(items: seq<Item>, tag: string): int {
    if items == [] then 0
    else (if Closes(items[0], tag) then 1 else if Opens(items[0], tag) then -1 else 0) + Excess(items[1..], tag)
  }

  function DepthAfter(it: Item, tag: string, depth: nat): nat
    requires depth > 0
  {
    if Closes(it, tag) then depth - 1 else if Opens(it, tag) then depth + 1 else depth
  }

  /** How many items there are up to where `tag`, `depth` deep, is closed. */
  function ItemsEnd(items: seq<Item>, tag: string, depth: nat): (r: Option<nat>)
    requires depth > 0
    ensures r.Some? ==> 0 < r.value <= |items|
  {
    if items == [] then None else
    var d := DepthAfter(items[0], tag, depth);
    if d == 0 then Some(1) else Shift(ItemsEnd(items[1..], tag, d), 1)
  }

  /** The element ends at the first closing tag that has no opening tag left. */
  lemma {:induction false} ItemsEndFirst(items: seq<Item>, tag: string, depth: nat)
    requires depth > 0
    ensures var r := ItemsEnd(items, tag, depth);
      && (r.Some? ==> Excess(items[..r.value], tag) == depth)
      && forall m | 0 <= m <= |items| && (r.Some? ==> m < r.value) :: Excess(items[..m], tag) < depth
  {
    hide Closes, Opens;
    if items != [] {
      var n := DepthAfter(items[0], tag, depth);
      forall m | 0 < m <= |items| ensures Excess(items[..m], tag) == Excess(items[1..][..m - 1], tag) + depth - n {
        assert items[..m][1..] == items[1..][..m - 1];
      }
      if n > 0 {
        ItemsEndFirst(items[1..], tag, n);
      } else {
        assert items[1..][..0] == [];
      }
    }
  }

  function NameStart(t: string): nat {
    if |t| > 1 && t[1] == '/' then 2 else 1
  }

  /** The tag's name, which starts at `p`. */
  function NameFrom(t: string, p: nat): string
    requires p <= |t|
  {
    t[p..p + Run(t[p..], IsWordChar)]
  }

  /** `s` has the name `word` at `p`, and its first `>` from there on at `end`. */
  predicate IsNamed(s: string, p: nat, word: string, end: nat) {
    && p + |word| <= end && p + |word| <= |s| && Run(s[p..], IsWordChar) == |word| && s[p..p + |word|] == word
    && IndexOf(s[p + |word|..], '>') == Some(end - p - |word|)
  }

  lemma NameFromIs(t: string, p: nat)
    requires p <= |t|
    ensures var word := NameFrom(t, p);
      |word| == Run(t[p..], IsWordChar) && p + |word| <= |t| && t[p..p + |word|] == word
  {
    hide Run, IsWordChar;
  }

  lemma NameRuns(t: string, x: string, p: nat)
    requires p <= |t| && x != "" && x[0] == '>'
    ensures Run((t + x)[p..], IsWordChar) == |NameFrom(t, p)|
  {
    NameFromIs(t, p);
    RunSlice(t, x, p, IsWordChar);
    hide Run, NameFrom;
  }

  lemma NameSlice(t: string, x: string, p: nat)
    requires p <= |t|
    ensures var n := p + |NameFrom(t, p)|; n <= |t| && (t + x)[p..n] == NameFrom(t, p)
  {
    NameFromIs(t, p);
    PrefixSlice(t, x, p, p + |NameFrom(t, p)|);
    hide Run, NameFrom;
  }

  lemma IsNamedTag(t: string, x: string, p: nat)
    requires p <= |t| && AllChars(t, IsNotTagEnd) && x != "" && x[0] == '>'
    ensures IsNamed(t + x, p, NameFrom(t, p), |t|)
  {
    hide Run, IndexOf, AllChars, IsWordChar, IsNotTagEnd, NameFrom;
    NameRuns(t, x, p);
    NameSlice(t, x, p);
    TagEnd(t, x, p + |NameFrom(t, p)|);
  }

  lemma NamedTagOf(s: string, slash: Slash, names: set<string>, word: string, end: nat)
    requires s != "" && s[0] == '<' && IsNamed(s, NameStart(s), word, end)
    ensures NamedTag(s, slash, names) ==
      if (NameStart(s) == 2 && slash.Without?) || (NameStart(s) == 1 && slash.Required?) || Fold(word) !in names then None
      else Some(end + 1)
  {
    hide Run, IndexOf, NamedTag;
    var p := NameStart(s);
    NamedTagParts(s, slash, names, p, p + |word|);
  }

  /** A named tag is decided by the tag alone, and ends with it. */
  lemma NamedEnds(t: string, x: string, slash: Slash, names: set<string>)
    requires t != "" && t[0] == '<' && AllChars(t, IsNotTagEnd)
    requires x != "" && x[0] == '>'
    ensures NamedTag(t + x, slash, names) ==
      if (NameStart(t) == 2 && slash.Without?) || (NameStart(t) == 1 && slash.Required?)
         || Fold(NameFrom(t, NameStart(t))) !in names then None
      else Some(|t| + 1)
  {
    TagHead(t, x, 0);
    assert NameStart(t + x) == NameStart(t);
    hide *;
    IsNamedTag(t, x, NameStart(t));
    NamedTagOf(t + x, slash, names, NameFrom(t, NameStart(t)), |t|);
  }

  lemma NamedWithin(inner: string, r: string, slash: Slash, tag: string)
    requires AllChars(inner, IsNoBracket)
    ensures NamedTag(Angled(inner) + r, slash, {tag}) == NamedTag(Angled(inner), slash, {tag})
    ensures NamedTag(Angled(inner), slash, {tag}).Some? ==>
      NamedTag(Angled(inner), slash, {tag}) == Some(|inner| + 2)
  {
    var t := "<" + inner;
    TagBody(inner);
    assert Angled(inner) + r == t + (">" + r) && Angled(inner) == t + ">";
    hide NamedTag, AllChars, NameStart, NameFrom;
    NamedEnds(t, ">" + r, slash, {tag});
    NamedEnds(t, ">", slash, {tag});
  }

  lemma {:induction false} EndSkips(t: string, r: string, tag: string, depth: nat)
    requires depth > 0 && '<' !in t
    ensures ElementEnd(t + r, tag, depth) == Shift(ElementEnd(r, tag, depth), |t|)
  {
    if t == "" {
      assert t + r == r;
    } else {
      hide NamedTag, ElementEnd;
      NoOpeningTail(t);
      NoNamed(t + r, tag);
      EndPast(t + r, tag, depth);
      TailConcat(t, r);
      EndSkips(t[1..], r, tag, depth);
    }
  }

  lemma NoOpeningTail(t: string)
    requires t != "" && '<' !in t
    ensures t[0] != '<' && '<' !in t[1..]
  {
  }

  lemma NoNamed(s: string, tag: string)
    requires s != "" && s[0] != '<'
    ensures NamedTag(s, Optional, {tag}).None?
  {
  }

  lemma MarkupNames(inner: string, r: string, tag: string)
    requires AllChars(inner, IsNoBracket)
    ensures var it, s := Element(inner), Angled(inner) + r;
      && NamedTag(s, Optional, {tag}) == (if Closes(it, tag) || Opens(it, tag) then Some(|inner| + 2) else None)
      && (Closes(it, tag) ==> StartsWith(s, "</")) && (Opens(it, tag) ==> !StartsWith(s, "</"))
  {
    NamedWithin(inner, r, Optional, tag);
    NamedWithin(inner, r, Required, tag);
    NamedWithin(inner, r, Without, tag);
    var s, m := Angled(inner) + r, Angled(inner);
    assert s[0] == m[0] == '<' && s[1] == m[1];
    assert s[..2] == [m[0], m[1]];
    hide Run, IndexOf, Fold, Angled;
  }

  lemma {:induction false} EndOfItem(it: Item, r: string, tag: string, depth: nat)
    requires depth > 0 && IsBare(it)
    ensures var s, n, d := ItemText(it) + r, |ItemText(it)|, DepthAfter(it, tag, depth);
      ElementEnd(s, tag, depth) == if d == 0 then Some(n) else Shift(ElementEnd(r, tag, d), n)
  {
    if it.Text? {
      EndSkips(ItemText(it), r, tag, depth);
    } else {
      MarkupNames(it.inner, r, tag);
      hide NamedTag, StartsWith, Angled, Closes, Opens, ElementEnd;
      if Closes(it, tag) || Opens(it, tag) {
        EndStep(Angled(it.inner), r, tag, depth);
      } else {
        NoOpening(it.inner);
        EndNoTag(Angled(it.inner), r, tag, depth);
      }
    }
  }

  lemma {:induction false} EndStep(m: string, r: string, tag: string, depth: nat)
    requires depth > 0 && NamedTag(m + r, Optional, {tag}) == Some(|m|)
    ensures var d := if StartsWith(m + r, "</") then depth - 1 else depth + 1;
      ElementEnd(m + r, tag, depth) == if d == 0 then Some(|m|) else Shift(ElementEnd(r, tag, d), |m|)
  {
    assert (m + r)[|m|..] == r;
    hide NamedTag, StartsWith;
  }

  lemma {:induction false} EndNoTag(m: string, r: string, tag: string, depth: nat)
    requires depth > 0 && m != "" && '<' !in m[1..] && NamedTag(m + r, Optional, {tag}).None?
    ensures ElementEnd(m + r, tag, depth) == Shift(ElementEnd(r, tag, depth), |m|)
  {
    hide NamedTag, ElementEnd;
    var s, tail := m + r, m[1..];
    assert |s| > 0 && s[1..] == tail + r by { TailConcat(m, r); }
    EndPast(s, tag, depth);
    EndSkips(tail, r, tag, depth);
  }

  lemma {:induction false} EndPast(s: string, tag: string, depth: nat)
    requires depth > 0 && s != "" && NamedTag(s, Optional, {tag}).None?
    ensures ElementEnd(s, tag, depth) == Shift(ElementEnd(s[1..], tag, depth), 1)
  {
    hide NamedTag;
  }

  lemma NoOpening(inner: string)
    requires AllChars(inner, IsNoBracket)
    ensures '<' !in Angled(inner)[1..]
  {
  }

  lemma ItemsTextAt(items: seq<Item>, n: nat)
    requires 0 < n <= |items|
    ensures |ItemsText(items[..n])| == |ItemText(items[0])| + |ItemsText(items[1..][..n - 1])|
  {
    assert items[..n][1..] == items[1..][..n - 1];
  }

  /** How long the first `n` items are as text. */
  function TextEnd(items: seq<Item>, n: Option<nat>): Option<nat>
    requires n.Some? ==> n.value <= |items|
  {
    if n.None? then None else Some(|ItemsText(items[..n.value])|)
  }

  lemma TextEndCons(items: seq<Item>, n: Option<nat>)
    requires items != [] && (n.Some? ==> n.value <= |items[1..]|)
    ensures TextEnd(items, Shift(n, 1)) == Shift(TextEnd(items[1..], n), |ItemText(items[0])|)
    ensures TextEnd(items, Some(1)) == Some(|ItemText(items[0])|)
  {
    hide ItemText, ItemsText;
    if n.Some? {
      ItemsTextAt(items, n.value + 1);
    }
    ItemsTextAt(items, 1);
    assert items[1..][..0] == [];
    NoText();
  }

  /** The end of an element in the text is its end among the items. */
  lemma {:induction false} EndOfItems(items: seq<Item>, tag: string, depth: nat)
    requires depth > 0 && AreBare(items)
    ensures ElementEnd(ItemsText(items), tag, depth) == TextEnd(items, ItemsEnd(items, tag, depth))
  {
    if items == [] {
      NoEnd(tag, depth);
    } else {
      var rest, d := items[1..], DepthAfter(items[0], tag, depth);
      ItemsTextCons(items);
      ItemsEndCons(items, tag, depth);
      assert IsBare(items[0]) && AreBare(rest);
      hide ElementEnd, DepthAfter, ItemText, IsBare, ItemsText, AreBare, ItemsEnd, TextEnd;
      EndOfItem(items[0], ItemsText(rest), tag, depth);
      if d == 0 {
        TextEndCons(items, None);
      } else {
        EndOfItems(rest, tag, d);
        TextEndCons(items, ItemsEnd(rest, tag, d));
      }
    }
  }

  lemma {:induction false} ItemsEndCons(items: seq<Item>, tag: string, depth: nat)
    requires items != [] && depth > 0
    ensures var d := DepthAfter(items[0], tag, depth);
      ItemsEnd(items, tag, depth) == if d == 0 then Some(1) else Shift(ItemsEnd(items[1..], tag, d), 1)
  {
  }

  lemma {:induction false} NoEnd(tag: string, depth: nat)
    requires depth > 0
    ensures ElementEnd(ItemsText([]), tag, depth).None? && ItemsEnd([], tag, depth).None?
  {
  }

  lemma NoText()
    ensures ItemsText([]) == ""
  {
  }

  lemma {:induction false} ItemsTextCons(items: seq<Item>)
    requires items != []
    ensures ItemsText(items) == ItemText(items[0]) + ItemsText(items[1..])
  {
  }

  // ---- The spans removed

  /** Where the span of the hiding tag at `i` ends: its element's end, or right
      after it when it is void or nothing closes it. */
  function SpanEnd(items: seq<Item>, i: nat): (n: nat)
    requires i < |items| && IsHiding(items[i])
    ensures i < n <= |items|
  {
    var o := ItemOpener(items[i]).value;
    var m := Angled(items[i].inner);
    if o.tag in HIDDEN_VOID || m[|m| - 2] == '/' then i + 1
    else
      match ItemsEnd(items[i + 1..], o.tag, 1)
      case None => i + 1
      case Some(k) => i + 1 + k
  }

  /** A span starts at every hiding tag that no earlier span covers. */
  predicate Starts(items: seq<Item>, i: nat)
    requires i < |items|
    decreases i
  {
    IsHiding(items[i]) && forall j | 0 <= j < i && Starts(items, j) :: SpanEnd(items, j) <= i
  }

  predicate IsRemoved(items: seq<Item>, i: nat)
    requires i < |items|
  {
    exists j | 0 <= j <= i :: Starts(items, j) && i < SpanEnd(items, j)
  }

  /** The items from `i` on that no span covers. */
  function KeptFrom(items: seq<Item>, i: nat): seq<Item>
    requires i <= |items|
    decreases |items| - i
  {
    if i == |items| then []
    else (if IsRemoved(items, i) then [] else [items[i]]) + KeptFrom(items, i + 1)
  }

  /** No span that starts before `i` goes past `i`. */
  predicate IsBoundary(items: seq<Item>, i: nat)
    requires i <= |items|
  {
    forall j | 0 <= j < i && Starts(items, j) :: SpanEnd(items, j) <= i
  }

  lemma {:induction false} RemovedSpan(items: seq<Item>, i: nat, k: nat, n: nat)
    requires i < |items| && Starts(items, i) && i <= k <= n <= SpanEnd(items, i)
    ensures KeptFrom(items, k) == KeptFrom(items, n)
    decreases n - k
  {
    hide SpanEnd, Starts;
    if k < n {
      assert IsRemoved(items, k);
      RemovedSpan(items, i, k + 1, n);
    }
  }

  lemma {:induction false} AfterHiding(items: seq<Item>, i: nat)
    requires i < |items| && IsBoundary(items, i) && IsHiding(items[i])
    ensures Starts(items, i) && IsBoundary(items, SpanEnd(items, i))
    ensures KeptFrom(items, i) == KeptFrom(items, SpanEnd(items, i))
  {
    hide SpanEnd, IsHiding;
    RemovedSpan(items, i, i, SpanEnd(items, i));
  }

  lemma AfterKept(items: seq<Item>, i: nat)
    requires i < |items| && IsBoundary(items, i) && !IsHiding(items[i])
    ensures IsBoundary(items, i + 1) && KeptFrom(items, i) == [items[i]] + KeptFrom(items, i + 1)
  {
    hide SpanEnd, IsHiding;
  }

  // ---- The text follows the items

  lemma {:induction false} CopiedText(t: string, r: string)
    requires '<' !in t
    ensures WithoutHidden(t + r) == t + WithoutHidden(r)
  {
    if t == "" {
      assert t + r == r;
    } else {
      hide OpenerAt, WithoutHidden;
      NoOpener(t + r);
      CopiedHead(t, r);
      CopiedText(t[1..], r);
      Rejoin(t, WithoutHidden(r));
    }
  }

  lemma {:induction false} CopiedHead(t: string, r: string)
    requires t != "" && OpenerAt(t + r).None?
    ensures WithoutHidden(t + r) == [t[0]] + WithoutHidden(t[1..] + r)
  {
    WithoutHiddenStep(t + r);
    hide OpenerAt, WithoutHidden;
    TailConcat(t, r);
    assert (t + r)[..1] == [t[0]];
  }

  lemma {:induction false} ShownHead(t: string, r: string)
    requires t != "" && OpenerAt(t + r).Some?
    requires OpenerAt(t + r).value.length == |t| && !IsHidden(OpenerAt(t + r).value)
    ensures WithoutHidden(t + r) == t + WithoutHidden(r)
  {
    WithoutHiddenStep(t + r);
    hide OpenerAt, WithoutHidden, IsHidden;
    assert (t + r)[..|t|] == t && (t + r)[|t|..] == r;
  }

  lemma {:induction false} HiddenHead(t: string, r: string, n: nat)
    requires t != "" && n <= |r| && OpenerAt(t + r).Some?
    requires OpenerAt(t + r).value.length == |t| && IsHidden(OpenerAt(t + r).value)
    requires HiddenLength(t + r, OpenerAt(t + r).value) == |t| + n
    ensures WithoutHidden(t + r) == WithoutHidden(r[n..])
  {
    hide OpenerAt, WithoutHidden, IsHidden, HiddenLength;
    WithoutHiddenStep(t + r);
    DropBoth(t, r, n);
  }

  lemma DropBoth(t: string, r: string, n: nat)
    requires n <= |r|
    ensures (t + r)[|t| + n..] == r[n..]
  {
  }

  lemma {:induction false} CopiedItem(it: Item, r: string)
    requires IsItem(it) && !IsHiding(it)
    ensures WithoutHidden(ItemText(it) + r) == ItemText(it) + WithoutHidden(r)
  {
    var t := ItemText(it);
    if it.Text? {
      CopiedText(t, r);
    } else {
      ItemOpens(it, r);
      hide OpenerAt, WithoutHidden, IsHidden, Angled;
      if OpenerAt(t + r).None? {
        CopiedHead(t, r);
        NoOpening(it.inner);
        CopiedText(t[1..], r);
        Rejoin(t, WithoutHidden(r));
      } else {
        ShownHead(t, r);
      }
    }
  }

  lemma {:induction false} ItemsTextSplit(items: seq<Item>, n: nat)
    requires n <= |items|
    ensures ItemsText(items) == ItemsText(items[..n]) + ItemsText(items[n..])
  {
    hide ItemText;
    if n == 0 {
      assert items[..0] == [] && items[0..] == items;
      assert "" + ItemsText(items) == ItemsText(items);
    } else {
      ItemsTextSplit(items[1..], n - 1);
      assert items[..n][1..] == items[1..][..n - 1] && items[1..][n - 1..] == items[n..];
    }
  }

  lemma SpanSlices(items: seq<Item>, i: nat, k: nat)
    requires i < |items| && k < |items| - i
    ensures items[i..][0] == items[i] && items[i..][1..] == items[i + 1..]
    ensures items[i + 1..][k..] == items[i + 1 + k..]
    ensures AreItems(items) ==> IsItem(items[i]) && AreItems(items[i + 1..])
  {
    hide IsItem;
  }

  /** A hiding tag takes exactly its span with it. */
  lemma SpanText(items: seq<Item>, i: nat)
    requires i < |items| && AreItems(items) && IsHiding(items[i])
    ensures WithoutHidden(ItemsText(items[i..])) == WithoutHidden(ItemsText(items[SpanEnd(items, i)..]))
  {
    hide OpenerAt, AreItems, AreBare, IsItem, ElementEnd, ItemText, ItemsText, IsHidden, WithoutHidden, ItemsEnd;
    hide SpanEnd, TextEnd, HiddenLength, Angled;
    var it, rest := items[i], items[i + 1..];
    var tag, k := ItemOpener(it).value.tag, SpanEnd(items, i) - i - 1;
    SpanSlices(items, i, k);
    ItemsTextCons(items[i..]);
    ItemOpens(it, ItemsText(rest));
    ItemsAreBare(rest);
    EndOfItems(rest, tag, 1);
    ItemsTextSplit(rest, k);
    SpanLength(items, i);
    HiddenHead(ItemText(it), ItemsText(rest), |ItemsText(rest[..k])|);
    DropBoth(ItemsText(rest[..k]), ItemsText(rest[k..]), 0);
  }

  lemma SpanLength(items: seq<Item>, i: nat)
    requires i < |items| && IsHiding(items[i])
    requires ItemOpener(items[i]).value.length == |ItemText(items[i])|
    requires var rest, tag := items[i + 1..], ItemOpener(items[i]).value.tag;
      ElementEnd(ItemsText(rest), tag, 1) == TextEnd(rest, ItemsEnd(rest, tag, 1))
    ensures HiddenLength(ItemText(items[i]) + ItemsText(items[i + 1..]), ItemOpener(items[i]).value)
         == |ItemText(items[i])| + |ItemsText(items[i + 1..][..SpanEnd(items, i) - i - 1])|
  {
    hide ElementEnd, ItemsEnd, OpenerAt, IsHidden, ItemsText, Angled, HiddenLength, TextEnd;
    var it, rest, o := items[i], items[i + 1..], ItemOpener(items[i]).value;
    var k, end := SpanEnd(items, i) - i - 1, ItemsEnd(rest, o.tag, 1);
    HiddenLengthIs(it.inner, ItemsText(rest), o);
    TextEndIs(rest, end);
    assert k == 0 || (end.Some? && k == end.value);
  }

  lemma TextEndIs(items: seq<Item>, n: Option<nat>)
    requires n.Some? ==> n.value <= |items|
    ensures TextEnd(items, n) == if n.None? then None else Some(|ItemsText(items[..n.value])|)
    ensures |ItemsText(items[..0])| == 0
  {
    assert items[..0] == [];
  }

  lemma {:induction false} HiddenLengthIs(inner: string, r: string, o: Opener)
    requires o.length == |Angled(inner)|
    ensures var m := Angled(inner);
      HiddenLength(m + r, o) ==
        if o.tag in HIDDEN_VOID || m[|m| - 2] == '/' || ElementEnd(r, o.tag, 1).None? then |m|
        else |m| + ElementEnd(r, o.tag, 1).value
  {
    var m := Angled(inner);
    LastTwo(inner, r);
    assert (m + r)[|m|..] == r;
    hide ElementEnd, Angled;
  }

  lemma LastTwo(inner: string, r: string)
    ensures var m := Angled(inner);
      (m + r)[|m| - 2] == m[|m| - 2] && (m + r)[|m| - 1] == '>'
  {
  }

  lemma {:induction false} KeptText(items: seq<Item>, i: nat)
    requires i <= |items| && AreItems(items) && IsBoundary(items, i)
    ensures WithoutHidden(ItemsText(items[i..])) == ItemsText(KeptFrom(items, i))
    decreases |items| - i
  {
    if i == |items| {
      assert items[i..] == [];
      NothingLeft();
    } else if IsHiding(items[i]) {
      AfterHiding(items, i);
      hide AreItems, IsHiding, SpanEnd, IsBoundary, WithoutHidden, ItemsText, KeptFrom;
      SpanText(items, i);
      KeptText(items, SpanEnd(items, i));
    } else {
      AfterKept(items, i);
      var rest, kept := items[i + 1..], KeptFrom(items, i + 1);
      assert IsItem(items[i]);
      assert items[i..][0] == items[i] && items[i..][1..] == rest;
      assert ([items[i]] + kept)[1..] == kept;
      ItemsTextCons(items[i..]);
      ItemsTextCons([items[i]] + kept);
      hide AreItems, IsHiding, IsItem, IsBoundary, WithoutHidden, ItemsText, KeptFrom;
      CopiedItem(items[i], ItemsText(rest));
      KeptText(items, i + 1);
    }
  }

  lemma NothingLeft()
    ensures WithoutHidden(ItemsText([])) == "" && ItemsText([]) == ""
  {
  }

  lemma {:induction false} KeptShown(items: seq<Item>, i: nat)
    requires i <= |items| && AreItems(items) && IsBoundary(items, i)
    ensures AreShown(KeptFrom(items, i))
    decreases |items| - i
  {
    if i < |items| {
      if IsHiding(items[i]) {
        AfterHiding(items, i);
        hide SpanEnd, IsHiding, IsBoundary, AreItems;
        KeptShown(items, SpanEnd(items, i));
      } else {
        AfterKept(items, i);
        hide IsHiding, IsBoundary, IsItem;
        KeptShown(items, i + 1);
      }
    }
  }

  /** A hiding tag is at the head of `s`. */
  predicate HidesHere(s: string) {
    OpenerAt(s).Some? && IsHidden(OpenerAt(s).value)
  }

  predicate AreShown(items: seq<Item>) {
    AreItems(items) && forall k | 0 <= k < |items| :: !IsHiding(items[k])
  }

  lemma ShownCons(items: seq<Item>)
    requires AreShown(items) && items != []
    ensures IsItem(items[0]) && !IsHiding(items[0]) && AreShown(items[1..])
  {
    hide IsItem, IsHiding;
  }

  /** Nothing in the text hides, at a tag or elsewhere. */
  lemma {:induction false} NoHiding(items: seq<Item>, p: nat)
    requires AreShown(items)
    requires p <= |ItemsText(items)|
    ensures !HidesHere(ItemsText(items)[p..])
  {
    if items == [] {
      NoText();
      NothingHides(ItemsText(items)[p..]);
    } else {
      var t, r := ItemText(items[0]), ItemsText(items[1..]);
      ItemsTextCons(items);
      ShownCons(items);
      hide HidesHere, IsItem, AreShown, ItemText, ItemsText, IsHiding;
      var s := ItemsText(items);
      if p >= |t| {
        var q := p - |t|;
        NoHiding(items[1..], q);
        assert !HidesHere(r[q..]);
        assert s[p..] == r[q..] by { DropBoth(t, r, q); }
      } else {
        NoHidingItem(items[0], r, p);
        assert !HidesHere(s[p..]);
      }
    }
  }

  lemma NothingHides(s: string)
    requires s == ""
    ensures !HidesHere(s)
  {
  }

  lemma NoHidingItem(it: Item, r: string, p: nat)
    requires IsItem(it) && !IsHiding(it) && p < |ItemText(it)|
    ensures !HidesHere((ItemText(it) + r)[p..])
  {
    var t := ItemText(it);
    assert (t + r)[p..][0] == t[p];
    if t[p] == '<' {
      ItemOpens(it, r);
      assert (t + r)[0..] == t + r;
    }
  }

  /** Every tag and character outside the spans of hiding tags survives in order,
      and nothing that hides is left anywhere in the text. */
  ghost predicate IsCleared(items: seq<Item>) {
    var out := WithoutHidden(ItemsText(items));
    && out == ItemsText(KeptFrom(items, 0))
    && forall p | 0 <= p <= |out| :: !HidesHere(out[p..])
  }

  /** Where angle brackets only delimit tags, and the last quoted style of an
      opening tag closes in the tag, hidden elements are removed cleanly. */
  lemma HiddenSpansRemoved(items: seq<Item>)
    requires AreItems(items)
    ensures IsCleared(items)
  {
    assert items[0..] == items;
    KeptText(items, 0);
    KeptShown(items, 0);
    hide HidesHere, WithoutHidden, AreItems;
    forall p | 0 <= p <= |ItemsText(KeptFrom(items, 0))| ensures !HidesHere(ItemsText(KeptFrom(items, 0))[p..]) {
      NoHiding(KeptFrom(items, 0), p);
    }
  }
}
