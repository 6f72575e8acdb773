/** String helpers with the meaning JavaScript gives them. A string is a
    sequence of Unicode scalar values. */
module Strings {

  datatype Option<+T> = None | Some(value: T)

  /** The class `\s`, which is also what `String.prototype.trim` strips. */
  predicate IsSpace(c: char) {
    || '\U{9}' <= c <= '\U{D}'
    || c == ' ' || c == '\U{A0}' || c == '\U{1680}'
    || '\U{2000}' <= c <= '\U{200A}'
    || c == '\U{2028}' || c == '\U{2029}' || c == '\U{202F}'
    || c == '\U{205F}' || c == '\U{3000}' || c == '\U{FEFF}'
  }

  predicate IsLetter(c: char) {
    'a' <= c <= 'z' || 'A' <= c <= 'Z'
  }

  predicate IsDigit(c: char) {
    '0' <= c <= '9'
  }

  predicate IsAlnum(c: char) {
    IsLetter(c) || IsDigit(c)
  }

  /** Case folding of a regular expression's `i` flag: ASCII letters only. */
  function FoldChar(c: char): char {
    if 'A' <= c <= 'Z' then (c as int + 32) as char else c
  }

  function Fold(s: string): string {
    seq(|s|, i requires 0 <= i < |s| => FoldChar(s[i]))
  }

  /** `toLowerCase` where it gives one ASCII letter: the Kelvin sign becomes `k`.
      Other characters stay, also U+0130, which becomes `i` and U+0307. */
  function LowerChar(c: char): char {
    if c == '\U{212A}' then 'k' else FoldChar(c)
  }

  function Lower(s: string): string {
    seq(|s|, i requires 0 <= i < |s| => LowerChar(s[i]))
  }

  lemma TailConcat(a: string, b: string)
    requires a != ""
    ensures (a + b)[0] == a[0] && (a + b)[1..] == a[1..] + b
  {
  }

  lemma Rejoin(a: string, w: string)
    requires a != ""
    ensures [a[0]] + (a[1..] + w) == a + w
  {
  }

  predicate AllChars(s: string, p: char -> bool) {
    forall i | 0 <= i < |s| :: p(s[i])
  }

  /** Length of the longest prefix of characters in class `p`. */
  function Run(s: string, p: char -> bool): (k: nat)
    ensures k <= |s|
    ensures forall i | 0 <= i < k :: p(s[i])
    ensures k < |s| ==> !p(s[k])
  {
    if s == "" || !p(s[0]) then 0 else
    var k := Run(s[1..], p);
    assert forall i | 0 < i < 1 + k :: s[i] == s[1..][i - 1];
    1 + k
  }

  lemma {:induction false} RunIs(s: string, p: char -> bool, k: nat)
    requires k <= |s|
    requires forall i | 0 <= i < k :: p(s[i])
    requires k < |s| ==> !p(s[k])
    ensures Run(s, p) == k
  {
    if k > 0 {
      assert p(s[0]);
      assert forall i | 0 <= i < k - 1 :: s[1..][i] == s[i + 1];
      RunIs(s[1..], p, k - 1);
    }
  }

  function TrimStart(s: string): string {
    s[Run(s, IsSpace)..]
  }

  /** Length of `s` without its trailing white space. */
  function TrimEndLength(s: string): (k: nat)
    ensures k <= |s|
    ensures k > 0 ==> !IsSpace(s[k - 1])
    ensures forall i | k <= i < |s| :: IsSpace(s[i])
  {
    if s == "" || !IsSpace(s[|s| - 1]) then |s| else TrimEndLength(s[..|s| - 1])
  }

  function TrimEnd(s: string): string {
    s[..TrimEndLength(s)]
  }

  function Trim(s: string): string {
    TrimEnd(TrimStart(s))
  }

  /** A string with no white space at either end is not changed by `Trim`. */
  lemma TrimStable(s: string)
    requires s == "" || (!IsSpace(s[0]) && !IsSpace(s[|s| - 1]))
    ensures Trim(s) == s
  {
    RunIs(s, IsSpace, 0);
    assert TrimStart(s) == s;
  }

  /** White space around a text is what is trimmed. */
  lemma TrimAround(before: string, s: string, after: string)
    requires AllChars(before, IsSpace) && AllChars(after, IsSpace)
    requires s != "" ==> !IsSpace(s[0]) && !IsSpace(s[|s| - 1])
    ensures Trim(before + s + after) == s
  {
    var t := before + s + after;
    if s == "" {
      RunIs(t, IsSpace, |t|);
    } else {
      RunIs(t, IsSpace, |before|);
      assert t[|before|..] == s + after;
      TrimEndOf(s, after);
    }
  }

  lemma {:induction false} TrimEndOf(s: string, after: string)
    requires AllChars(after, IsSpace) && s != "" && !IsSpace(s[|s| - 1])
    ensures TrimEnd(s + after) == s
  {
    var t := s + after;
    var k := TrimEndLength(t);
    hide TrimEndLength;
    assert t[|s| - 1] == s[|s| - 1];
    assert forall i | |s| <= i < |t| :: t[i] == after[i - |s|];
    assert k == |s|;
    assert t[..|s|] == s;
  }

  lemma TrimEnds(s: string)
    ensures Trim(s) != "" ==> !IsSpace(Trim(s)[0]) && !IsSpace(Trim(s)[|Trim(s)| - 1])
  {
  }

  predicate StartsWith(s: string, prefix: string) {
    |prefix| <= |s| && s[..|prefix|] == prefix
  }

  /** `/^prefix/i` for a lower-case ASCII `prefix`. */
  predicate StartsWithFold(s: string, prefix: string): (r: bool)
    ensures r ==> |prefix| <= |s|
  {
    |prefix| <= |s| && Fold(s[..|prefix|]) == prefix
  }

  /** `indexOf(c)`. */
  function IndexOf(s: string, c: char): (r: Option<nat>)
    ensures r.Some? ==> r.value < |s| && s[r.value] == c && c !in s[..r.value]
    ensures r.None? ==> c !in s
  {
    if s == "" then None
    else if s[0] == c then Some(0)
    else
      match IndexOf(s[1..], c)
      case None => assert s == [s[0]] + s[1..]; None
      case Some(k) => assert s[..k + 1] == [s[0]] + s[1..][..k]; Some(k + 1)
  }

  lemma {:induction false} IndexOfIs(s: string, c: char, k: nat)
    requires k < |s| && s[k] == c && c !in s[..k]
    ensures IndexOf(s, c) == Some(k)
  {
    if k > 0 {
      assert s[0] == s[..k][0];
      assert s[1..][..k - 1] == s[..k][1..];
      IndexOfIs(s[1..], c, k - 1);
    }
  }

  /** `indexOf(sub)`. */
  function Find(s: string, sub: string): (r: Option<nat>)
    ensures r.Some? ==> r.value + |sub| <= |s|
  {
    if StartsWith(s, sub) then Some(0)
    else if s == "" then None
    else
      match Find(s[1..], sub)
      case None => None
      case Some(k) => Some(k + 1)
  }

  /** `split(c)` */
  function Split(s: string, c: char): (parts: seq<string>)
    ensures parts != []
  {
    if s == "" then [""]
    else if s[0] == c then [""] + Split(s[1..], c)
    else var rest := Split(s[1..], c); [[s[0]] + rest[0]] + rest[1..]
  }

  /** `join(c)` */
  function Join(parts: seq<string>, c: char): string {
    if parts == [] then "" else if |parts| == 1 then parts[0] else parts[0] + [c] + Join(parts[1..], c)
  }

  /** The first `/<([^>]+)>/`: what stands in the brackets. */
  function Bracketed(s: string): (r: Option<string>)
    ensures r.Some? ==> r.value != ""
  {
    if s == "" then None
    else if s[0] == '<' && IndexOf(s[1..], '>').Some? && IndexOf(s[1..], '>').value > 0 then
      Some(s[1..][..IndexOf(s[1..], '>').value])
    else Bracketed(s[1..])
  }

  lemma {:induction false} NoneBracketed(s: string)
    requires '<' !in s
    ensures Bracketed(s).None?
  {
    if s != "" {
      NoneBracketed(s[1..]);
    }
  }

  /** The first brackets with something in them. */
  lemma {:induction false} BracketFound(before: string, inner: string, after: string)
    requires '<' !in before && inner != "" && '>' !in inner
    ensures Bracketed(before + ("<" + inner + ">" + after)) == Some(inner)
  {
    var s := before + ("<" + inner + ">" + after);
    if before == "" {
      assert s[1..] == inner + (">" + after);
      assert s[1..][..|inner|] == inner;
      IndexOfIs(s[1..], '>', |inner|);
    } else {
      hide Bracketed;
      TailConcat(before, "<" + inner + ">" + after);
      BracketFound(before[1..], inner, after);
      SkipBracketed(s);
    }
  }

  lemma {:induction false} SkipBracketed(s: string)
    requires s != "" && s[0] != '<'
    ensures Bracketed(s) == Bracketed(s[1..])
  {
  }

  /** `replace(/c/g, sub)`. */
  function ReplaceChar(s: string, c: char, sub: string): string {
    if s == "" then "" else (if s[0] == c then sub else [s[0]]) + ReplaceChar(s[1..], c, sub)
  }

  lemma {:induction false} ReplaceCharConcat(a: string, b: string, c: char, sub: string)
    ensures ReplaceChar(a + b, c, sub) == ReplaceChar(a, c, sub) + ReplaceChar(b, c, sub)
  {
    if a == "" {
      assert a + b == b;
    } else {
      assert (a + b)[1..] == a[1..] + b;
      ReplaceCharConcat(a[1..], b, c, sub);
    }
  }

  lemma {:induction false} ReplaceCharAbsent(s: string, c: char, sub: string)
    requires c !in s
    ensures ReplaceChar(s, c, sub) == s
  {
    if s != "" {
      assert s == [s[0]] + s[1..];
      ReplaceCharAbsent(s[1..], c, sub);
    }
  }

  /** One match of a global regular expression at the head of a string. */
  datatype Hit = Hit(length: nat, text: string)

  type Matcher = string -> Option<Hit>

  /** `replace(regex, …)` with the `g` flag, where `m(rest)` says what the
      expression matches at the start of `rest`. */
  function ReplaceAll(s: string, m: Matcher): string
    decreases |s|
  {
    if s == "" then ""
    else if m(s).Some? && 0 < m(s).value.length <= |s| then
      m(s).value.text + ReplaceAll(s[m(s).value.length..], m)
    else [s[0]] + ReplaceAll(s[1..], m)
  }

  /** Text that holds no start of a match is copied. */
  lemma {:induction false} ReplaceAllCopies(t: string, r: string, m: Matcher)
    requires forall i | 0 <= i < |t| :: m(t[i..] + r).None?
    ensures ReplaceAll(t + r, m) == t + ReplaceAll(r, m)
  {
    if t == "" {
      assert t + r == r;
    } else {
      assert t[0..] + r == t + r;
      assert m(t + r).None?;
      assert (t + r)[1..] == t[1..] + r;
      forall i | 0 <= i < |t[1..]| ensures m(t[1..][i..] + r).None? {
        assert t[1..][i..] == t[i + 1..];
      }
      ReplaceAllCopies(t[1..], r, m);
      assert t == [t[0]] + t[1..];
    }
  }

  lemma {:induction false} ReplaceAllHit(t: string, r: string, m: Matcher, text: string)
    requires t != "" && m(t + r) == Some(Hit(|t|, text))
    ensures ReplaceAll(t + r, m) == text + ReplaceAll(r, m)
  {
    assert (t + r)[|t|..] == r;
  }
}
