/** HTML entities: the decoder of `shared/quoted-text.ts` and the two escapers
    of `shared/quoted-html.ts`. */
module Entities {
  import opened Strings

  /** The names the escapers use; `OTHER_ENTITIES` holds the rest of the table. */
  function EscapeEntity(name: string): Option<string> {
    match name
    case "amp" => Some("&")
    case "lt" => Some("<")
    case "gt" => Some(">")
    case "quot" => Some("\"")
    case _ => None
  }

  const OTHER_ENTITIES: map<string, string> := map[
    "nbsp" := " ", "apos" := "'", "shy" := "", "zwnj" := "", "zwj" := "\U{200D}", "lrm" := "", "rlm" := "",
    "ensp" := " ", "emsp" := " ", "thinsp" := " ", "ndash" := "\U{2013}", "mdash" := "\U{2014}",
    "lsquo" := "\U{2018}", "rsquo" := "\U{2019}", "sbquo" := "\U{201A}", "ldquo" := "\U{201C}",
    "rdquo" := "\U{201D}", "bdquo" := "\U{201E}", "laquo" := "\U{AB}", "raquo" := "\U{BB}",
    "hellip" := "\U{2026}", "bull" := "\U{2022}", "middot" := "\U{B7}", "copy" := "\U{A9}",
    "reg" := "\U{AE}", "trade" := "\U{2122}", "euro" := "\U{20AC}", "pound" := "\U{A3}",
    "yen" := "\U{A5}", "cent" := "\U{A2}", "deg" := "\U{B0}", "times" := "\U{D7}",
    "divide" := "\U{F7}", "plusmn" := "\U{B1}", "sect" := "\U{A7}", "para" := "\U{B6}",
    "iexcl" := "\U{A1}", "iquest" := "\U{BF}", "rarr" := "\U{2192}", "larr" := "\U{2190}",
    "uarr" := "\U{2191}", "darr" := "\U{2193}", "hearts" := "\U{2665}", "star" := "\U{2606}",
    "check" := "\U{2713}", "aacute" := "\U{E1}", "eacute" := "\U{E9}", "iacute" := "\U{ED}",
    "oacute" := "\U{F3}", "uacute" := "\U{FA}", "agrave" := "\U{E0}", "egrave" := "\U{E8}",
    "ugrave" := "\U{F9}", "acirc" := "\U{E2}", "ecirc" := "\U{EA}", "ocirc" := "\U{F4}",
    "auml" := "\U{E4}", "euml" := "\U{EB}", "iuml" := "\U{EF}", "ouml" := "\U{F6}",
    "uuml" := "\U{FC}", "ntilde" := "\U{F1}", "ccedil" := "\U{E7}", "szlig" := "\U{DF}",
    "Aacute" := "\U{C1}", "Eacute" := "\U{C9}", "Oacute" := "\U{D3}", "Auml" := "\U{C4}",
    "Ouml" := "\U{D6}", "Uuml" := "\U{DC}", "Ntilde" := "\U{D1}", "Ccedil" := "\U{C7}"
  ]

  predicate IsHexDigit(c: char) {
    IsDigit(c) || 'a' <= c <= 'f' || 'A' <= c <= 'F'
  }

  function DigitValue(c: char): nat
    requires IsHexDigit(c)
  {
    if IsDigit(c) then c as int - '0' as int
    else if 'a' <= c <= 'f' then c as int - 'a' as int + 10
    else c as int - 'A' as int + 10
  }

  /** `Number.parseInt(s, radix)`. */
  function ParseInt(s: string, radix: nat): nat
    requires forall c | c in s :: IsHexDigit(c)
  {
    if s == "" then 0
    else ParseInt(s[..|s| - 1], radix) * radix + DigitValue(s[|s| - 1])
  }

  /** What a numeric entity stands for; nothing for zero, surrogates and
      numbers past the last code point. */
  function CodePointText(code: nat): string {
    if code == 0 || code > 0x10FFFF || 0xD800 <= code <= 0xDFFF then "" else [code as char]
  }

  function NamedEntity(name: string): Option<string> {
    if EscapeEntity(name).Some? then EscapeEntity(name)
    else if name in OTHER_ENTITIES then Some(OTHER_ENTITIES[name])
    else None
  }

  /** The value of the name between `&` and `;`, or the entity as written. */
  function NamedText(name: string): string {
    if NamedEntity(name).Some? then NamedEntity(name).value
    else if NamedEntity(Lower(name)).Some? then NamedEntity(Lower(name)).value
    else "&" + name + ";"
  }

  function NumericHit(s: string, start: nat, p: char -> bool, radix: nat): Option<Hit>
    requires start <= |s|
    requires forall c: char :: p(c) ==> IsHexDigit(c)
  {
    var k := start + Run(s[start..], p);
    if start < k < |s| && s[k] == ';' then
      assert forall i | 0 <= i < k - start :: s[start..k][i] == s[start..][i];
      Some(Hit(k + 1, CodePointText(ParseInt(s[start..k], radix))))
    else None
  }

  /** The entity at the head of `s` and its decoded text. */
  function EntityAt(s: string): Option<Hit> {
    if |s| < 2 || s[0] != '&' then None
    else if s[1] == '#' then
      if |s| > 2 && (s[2] == 'x' || s[2] == 'X') then NumericHit(s, 3, IsHexDigit, 16)
      else NumericHit(s, 2, IsDigit, 10)
    else if IsLetter(s[1]) then
      var k := 1 + Run(s[1..], IsAlnum);
      if k < |s| && s[k] == ';' then Some(Hit(k + 1, NamedText(s[1..k]))) else None
    else None
  }

  function DecodeEntities(s: string): string {
    ReplaceAll(s, EntityAt)
  }

  function EscapeAttr(value: string): string {
    ReplaceChar(ReplaceChar(ReplaceChar(ReplaceChar(value,
      '&', "&amp;"), '"', "&quot;"), '<', "&lt;"), '>', "&gt;")
  }

  function EscapeHtml(text: string): string {
    ReplaceChar(ReplaceChar(ReplaceChar(ReplaceChar(ReplaceChar(text,
      '&', "&amp;"), '<', "&lt;"), '>', "&gt;"), '"', "&quot;"), '\'', "&#39;")
  }

  function AttrCharText(c: char): string {
    match c
    case '&' => "&amp;"
    case '"' => "&quot;"
    case '<' => "&lt;"
    case '>' => "&gt;"
    case _ => [c]
  }

  function HtmlCharText(c: char): string {
    if c == '\'' then "&#39;" else AttrCharText(c)
  }

  function PerChar(s: string, f: char -> string): string {
    if s == "" then "" else f(s[0]) + PerChar(s[1..], f)
  }

  /** The four chained replaces of `escapeAttr` escape each character once. */
  lemma {:induction false} EscapeAttrPerChar(s: string)
    ensures EscapeAttr(s) == PerChar(s, AttrCharText)
  {
    if s != "" {
      EscapeAttrPerChar(s[1..]);
      EscapeAttrCons(s);
    }
  }

  lemma EscapeAttrConcat(a: string, b: string)
    ensures EscapeAttr(a + b) == EscapeAttr(a) + EscapeAttr(b)
  {
    var a1, b1 := ReplaceChar(a, '&', "&amp;"), ReplaceChar(b, '&', "&amp;");
    var a2, b2 := ReplaceChar(a1, '"', "&quot;"), ReplaceChar(b1, '"', "&quot;");
    var a3, b3 := ReplaceChar(a2, '<', "&lt;"), ReplaceChar(b2, '<', "&lt;");
    ReplaceCharConcat(a, b, '&', "&amp;");
    ReplaceCharConcat(a1, b1, '"', "&quot;");
    ReplaceCharConcat(a2, b2, '<', "&lt;");
    ReplaceCharConcat(a3, b3, '>', "&gt;");
  }

  lemma {:induction false} ReplaceOne(c: char, d: char, sub: string)
    ensures ReplaceChar([c], d, sub) == if c == d then sub else [c]
  {
    assert [c][1..] == "";
  }

  /** Three replaces of characters that do not occur. */
  lemma {:induction false} ReplaceNone(s: string, c1: char, s1: string, c2: char, s2: string, c3: char, s3: string)
    requires c1 !in s && c2 !in s && c3 !in s
    ensures ReplaceChar(ReplaceChar(ReplaceChar(s, c1, s1), c2, s2), c3, s3) == s
  {
    ReplaceCharAbsent(s, c1, s1);
    ReplaceCharAbsent(s, c2, s2);
    ReplaceCharAbsent(s, c3, s3);
  }

  /** Four chained replaces of one character: the first that fits decides. */
  lemma {:induction false} ReplaceFour(c: char, c1: char, s1: string, c2: char, s2: string, c3: char, s3: string, c4: char, s4: string)
    requires c2 !in s1 && c3 !in s1 && c4 !in s1
    requires c3 !in s2 && c4 !in s2 && c4 !in s3
    ensures ReplaceChar(ReplaceChar(ReplaceChar(ReplaceChar([c], c1, s1), c2, s2), c3, s3), c4, s4)
         == if c == c1 then s1 else if c == c2 then s2 else if c == c3 then s3 else if c == c4 then s4 else [c]
  {
    ReplaceOne(c, c1, s1);
    if c == c1 {
      ReplaceNone(s1, c2, s2, c3, s3, c4, s4);
    } else {
      ReplaceOne(c, c2, s2);
      if c == c2 {
        ReplaceCharAbsent(s2, c3, s3);
        ReplaceCharAbsent(s2, c4, s4);
      } else {
        ReplaceOne(c, c3, s3);
        ReplaceOne(c, c4, s4);
        if c == c3 {
          ReplaceCharAbsent(s3, c4, s4);
        }
      }
    }
  }

  lemma EscapeAttrOne(c: char)
    ensures EscapeAttr([c]) == AttrCharText(c)
  {
    ReplaceFour(c, '&', "&amp;", '"', "&quot;", '<', "&lt;", '>', "&gt;");
  }

  lemma EscapeAttrCons(s: string)
    requires s != ""
    ensures EscapeAttr(s) == AttrCharText(s[0]) + EscapeAttr(s[1..])
  {
    EscapeAttrConcat([s[0]], s[1..]);
    EscapeAttrOne(s[0]);
    assert s == [s[0]] + s[1..];
  }

  lemma {:induction false} EscapeHtmlPerChar(s: string)
    ensures EscapeHtml(s) == PerChar(s, HtmlCharText)
  {
    if s != "" {
      EscapeHtmlPerChar(s[1..]);
      EscapeHtmlCons(s);
    }
  }

  /** The two escapers differ in their order and in the apostrophe only. */
  lemma EscapeHtmlConcat(a: string, b: string)
    ensures EscapeHtml(a + b) == EscapeHtml(a) + EscapeHtml(b)
  {
    var a1, b1 := ReplaceChar(a, '&', "&amp;"), ReplaceChar(b, '&', "&amp;");
    var a2, b2 := ReplaceChar(a1, '<', "&lt;"), ReplaceChar(b1, '<', "&lt;");
    var a3, b3 := ReplaceChar(a2, '>', "&gt;"), ReplaceChar(b2, '>', "&gt;");
    var a4, b4 := ReplaceChar(a3, '"', "&quot;"), ReplaceChar(b3, '"', "&quot;");
    ReplaceCharConcat(a, b, '&', "&amp;");
    ReplaceCharConcat(a1, b1, '<', "&lt;");
    ReplaceCharConcat(a2, b2, '>', "&gt;");
    ReplaceCharConcat(a3, b3, '"', "&quot;");
    ReplaceCharConcat(a4, b4, '\'', "&#39;");
  }

  lemma EscapeHtmlOne(c: char)
    ensures EscapeHtml([c]) == HtmlCharText(c)
  {
    ReplaceFour(c, '&', "&amp;", '<', "&lt;", '>', "&gt;", '"', "&quot;");
    if c == '\'' {
      ReplaceOne(c, '\'', "&#39;");
    } else {
      ReplaceCharAbsent(AttrCharText(c), '\'', "&#39;");
    }
  }

  lemma EscapeHtmlCons(s: string)
    requires s != ""
    ensures EscapeHtml(s) == HtmlCharText(s[0]) + EscapeHtml(s[1..])
  {
    EscapeHtmlConcat([s[0]], s[1..]);
    EscapeHtmlOne(s[0]);
    assert s == [s[0]] + s[1..];
  }

  lemma EntityHead(name: string, r: string)
    ensures var s := "&" + name + ";" + r;
      |s| >= |name| + 2 && s[0] == '&' && s[1..] == name + (";" + r) && s[1..|name| + 1] == name && s[|name| + 1] == ';'
  {
  }

  lemma {:induction false} NameIsAlnum(name: string, r: string)
    requires EscapeEntity(name).Some?
    ensures name != "" && IsLetter(name[0]) && Run(name + (";" + r), IsAlnum) == |name|
  {
    assert forall i | 0 <= i < |name| :: IsAlnum(name[i]);
    RunIs(name + (";" + r), IsAlnum, |name|);
  }

  lemma NamedEntityAt(name: string, r: string)
    requires EscapeEntity(name).Some?
    ensures EntityAt("&" + name + ";" + r) == Some(Hit(|name| + 2, EscapeEntity(name).value))
  {
    hide Run, EscapeEntity, IsLetter, IsAlnum;
    EntityHead(name, r);
    NameIsAlnum(name, r);
  }

  lemma ApostropheEntityAt(r: string)
    ensures EntityAt("&#39;" + r) == Some(Hit(5, "'"))
  {
    var s := "&#39;" + r;
    assert s[2..][0] == '3' && s[2..][1] == '9' && s[2..][2] == ';';
    RunIs(s[2..], IsDigit, 2);
    var d := s[2..4];
    assert d == "39" && d[..1] == "3" && d[..1][..0] == "";
    assert ParseInt(d[..1], 10) == 3;
    assert ParseInt(d, 10) == 39;
  }

  lemma NamedCharAt(c: char, name: string, r: string)
    requires EscapeEntity(name) == Some([c]) && HtmlCharText(c) == "&" + name + ";"
    ensures DecodeEntities(HtmlCharText(c) + r) == [c] + DecodeEntities(r)
  {
    var t := HtmlCharText(c);
    NamedEntityAt(name, r);
    hide EntityAt, HtmlCharText;
    ReplaceAllHit(t, r, EntityAt, [c]);
  }

  /** Decoding undoes the escape of one character, whatever follows it. */
  lemma DecodeCharText(c: char, r: string)
    ensures DecodeEntities(HtmlCharText(c) + r) == [c] + DecodeEntities(r)
  {
    match c {
      case '&' => NamedCharAt(c, "amp", r);
      case '"' => NamedCharAt(c, "quot", r);
      case '<' => NamedCharAt(c, "lt", r);
      case '>' => NamedCharAt(c, "gt", r);
      case '\'' =>
        ApostropheEntityAt(r);
        ReplaceAllHit("&#39;", r, EntityAt, "'");
      case _ => DecodePlain(c, r);
    }
  }

  lemma DecodePlain(c: char, r: string)
    requires c != '&'
    ensures DecodeEntities([c] + r) == [c] + DecodeEntities(r)
  {
    assert EntityAt([c] + r).None?;
    assert ([c] + r)[1..] == r;
  }

  /** `decodeEntities` undoes `escapeHtml` on every string. */
  lemma {:induction false} DecodeEscapeHtml(s: string)
    ensures DecodeEntities(EscapeHtml(s)) == s
  {
    if s != "" {
      EscapeHtmlCons(s);
      DecodeCharText(s[0], EscapeHtml(s[1..]));
      DecodeEscapeHtml(s[1..]);
    }
  }

  /** `decodeEntities` undoes `escapeAttr` on every string. */
  lemma {:induction false} DecodeEscapeAttr(s: string)
    ensures DecodeEntities(EscapeAttr(s)) == s
  {
    if s != "" {
      EscapeAttrCons(s);
      var r := EscapeAttr(s[1..]);
      if s[0] == '\'' {
        DecodePlain(s[0], r);
      } else {
        DecodeCharText(s[0], r);
      }
      DecodeEscapeAttr(s[1..]);
    }
  }

  /** An escaped attribute value cannot end the quotes or the tag around it. */
  lemma {:induction false} EscapeAttrInert(s: string)
    ensures forall c | c in EscapeAttr(s) :: c != '"' && c != '<' && c != '>'
  {
    if s != "" {
      EscapeAttrCons(s);
      EscapeAttrInert(s[1..]);
    }
  }
}
