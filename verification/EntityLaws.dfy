/** What `decodeEntities` of `shared/quoted-text.ts` does to every text, as laws
    about texts. */
module EntityLaws {
  import opened Strings
  import opened Entities

  // ---- Numbers

  const DIGITS := "0123456789abcdef"
  const CAPITALS := "0123456789ABCDEF"

  /** `text` writes the digits `ds`, in either case. */
  predicate AreDigits(text: string, ds: seq<nat>) {
    |text| == |ds| && forall i | 0 <= i < |ds| :: ds[i] < 16 && (text[i] == DIGITS[ds[i]] || text[i] == CAPITALS[ds[i]])
  }

  function Power(radix: nat, n: nat): nat {
    if n == 0 then 1 else radix * Power(radix, n - 1)
  }

  /** The number of these digits, the first one weighing most. */
  function ValueOf(ds: seq<nat>, radix: nat): nat {
    if ds == [] then 0 else ds[0] * Power(radix, |ds| - 1) + ValueOf(ds[1..], radix)
  }

  predicate AreBelow(ds: seq<nat>, radix: nat) {
    forall i | 0 <= i < |ds| :: ds[i] < radix
  }

  /** The character of a code point; no text for any other number. */
  function CharOf(n: nat): string {
    if 1 <= n < 0xD800 || 0xE000 <= n < 0x110000 then [n as char] else ""
  }

  lemma {:induction false} ValueSnoc(ds: seq<nat>, radix: nat)
    requires ds != []
    ensures ValueOf(ds, radix) == ValueOf(ds[..|ds| - 1], radix) * radix + ds[|ds| - 1]
  {
    var n := |ds| - 1;
    if n == 0 {
      assert ds[..0] == [] && ds[1..] == [];
    } else {
      ValueSnoc(ds[1..], radix);
      assert ds[1..][..n - 1] == ds[..n][1..] && ds[1..][n - 1] == ds[n];
      PowerUp(ds[0], radix, n, ValueOf(ds[..n][1..], radix));
    }
  }

  lemma PowerUp(d: nat, radix: nat, n: nat, rest: nat)
    requires n > 0
    ensures d * Power(radix, n) + rest * radix == (d * Power(radix, n - 1) + rest) * radix
  {
    var p := Power(radix, n - 1);
    hide Power;
    assert Power(radix, n) == radix * p by { PowerIs(radix, n); }
    assert d * (radix * p) == (d * p) * radix;
  }

  lemma PowerIs(radix: nat, n: nat)
    requires n > 0
    ensures Power(radix, n) == radix * Power(radix, n - 1)
  {
  }

  lemma DigitIs(c: char, d: nat)
    requires d < 16 && (c == DIGITS[d] || c == CAPITALS[d])
    ensures IsHexDigit(c) && DigitValue(c) == d && (d < 10 <==> IsDigit(c)) && c != ';'
  {
  }

  lemma DigitsAre(text: string, ds: seq<nat>)
    requires AreDigits(text, ds)
    ensures forall i | 0 <= i < |ds| :: IsHexDigit(text[i]) && (ds[i] < 10 <==> IsDigit(text[i]))
    ensures forall c | c in text :: IsHexDigit(c)
  {
    forall i | 0 <= i < |ds| ensures IsHexDigit(text[i]) && (ds[i] < 10 <==> IsDigit(text[i])) {
      DigitIs(text[i], ds[i]);
    }
    hide IsHexDigit, IsDigit;
  }

  lemma {:induction false} ParseStep(text: string, radix: nat)
    requires text != "" && forall c | c in text :: IsHexDigit(c)
    ensures var n := |text| - 1;
      && (forall c | c in text[..n] :: IsHexDigit(c)) && IsHexDigit(text[n])
      && ParseInt(text, radix) == ParseInt(text[..n], radix) * radix + DigitValue(text[n])
  {
    hide IsHexDigit, DigitValue;
  }

  lemma {:induction false} NoDigits(radix: nat)
    ensures ParseInt("", radix) == 0 && ValueOf([], radix) == 0
  {
  }

  lemma LastDigit(text: string, ds: seq<nat>)
    requires AreDigits(text, ds) && ds != []
    ensures var n := |ds| - 1; |text| == n + 1 && AreDigits(text[..n], ds[..n]) && IsHexDigit(text[n]) && DigitValue(text[n]) == ds[n]
  {
    DigitIs(text[|ds| - 1], ds[|ds| - 1]);
    hide IsHexDigit, DigitValue;
  }

  lemma {:induction false} ParsedIs(text: string, ds: seq<nat>, radix: nat)
    requires AreDigits(text, ds) && forall c | c in text :: IsHexDigit(c)
    ensures ParseInt(text, radix) == ValueOf(ds, radix)
  {
    if ds == [] {
      NoDigits(radix);
    } else {
      LastDigit(text, ds);
      hide *;
      var n := |ds| - 1;
      ParseStep(text, radix);
      ParsedIs(text[..n], ds[..n], radix);
      ValueSnoc(ds, radix);
    }
  }

  lemma CharTextIs(n: nat)
    ensures CodePointText(n) == CharOf(n)
  {
  }

  /** The number's text is scanned up to the semicolon. */
  lemma {:induction false} NumberScanned(head: string, text: string, ds: seq<nat>, r: string, p: char -> bool, radix: nat)
    requires AreDigits(text, ds) && ds != [] && AreBelow(ds, radix) && (forall c: char :: p(c) ==> IsHexDigit(c)) && !p(';')
    requires forall i | 0 <= i < |text| :: p(text[i])
    ensures NumericHit(head + (text + (";" + r)), |head|, p, radix) == Some(Hit(|head| + |text| + 1, CharOf(ValueOf(ds, radix))))
  {
    hide IsHexDigit, ParseInt, CodePointText, ValueOf, CharOf;
    var s := head + (text + (";" + r));
    assert s[|head|..] == text + (";" + r);
    RunIs(text + (";" + r), p, |text|);
    assert s[|head|..|head| + |text|] == text;
    DigitsAre(text, ds);
    ParsedIs(text, ds, radix);
    CharTextIs(ValueOf(ds, radix));
  }

  lemma EntityTaken(t: string, r: string, text: string)
    requires t != "" && EntityAt(t + r) == Some(Hit(|t|, text))
    ensures DecodeEntities(t + r) == text + DecodeEntities(r)
  {
    hide EntityAt;
    ReplaceAllHit(t, r, EntityAt, text);
  }

  lemma EndsNoNumber()
    ensures !IsHexDigit(';') && !IsDigit(';') && forall c: char :: IsDigit(c) ==> IsHexDigit(c)
  {
  }

  lemma DecimalsAre(text: string, ds: seq<nat>)
    requires ds != [] && AreDigits(text, ds) && AreBelow(ds, 10)
    ensures text != "" && !IsDigit(';') && (forall i | 0 <= i < |text| :: IsDigit(text[i]))
    ensures forall c: char :: IsDigit(c) ==> IsHexDigit(c)
  {
    EndsNoNumber();
    DigitsAre(text, ds);
    hide IsHexDigit, IsDigit;
  }

  lemma DecimalAt(text: string, r: string)
    requires text != "" && forall i | 0 <= i < |text| :: IsDigit(text[i])
    requires forall c: char :: IsDigit(c) ==> IsHexDigit(c)
    ensures var s := "&#" + text + ";" + r;
      s == "&#" + (text + (";" + r)) && |s| >= 2 && EntityAt(s) == NumericHit(s, 2, IsDigit, 10)
  {
    DecimalIsNoHex(text[0]);
    hide NumericHit, IsHexDigit, IsDigit;
    var s := "&#" + text + ";" + r;
    assert s[2] == text[0];
  }

  /** A decimal entity is the character of its number. */
  lemma {:induction false} NumberDecoded(text: string, ds: seq<nat>, r: string)
    requires ds != [] && AreDigits(text, ds) && AreBelow(ds, 10)
    ensures DecodeEntities("&#" + text + ";" + r) == CharOf(ValueOf(ds, 10)) + DecodeEntities(r)
  {
    hide *;
    DecimalsAre(text, ds);
    NumberScanned("&#", text, ds, r, IsDigit, 10);
    DecimalAt(text, r);
    EntityTaken("&#" + text + ";", r, CharOf(ValueOf(ds, 10)));
  }

  lemma DecimalIsNoHex(c: char)
    requires IsDigit(c)
    ensures c != 'x' && c != 'X'
  {
  }

  lemma HexDigitsAre(text: string, ds: seq<nat>)
    requires AreDigits(text, ds)
    ensures AreBelow(ds, 16) && !IsHexDigit(';') && forall i | 0 <= i < |text| :: IsHexDigit(text[i])
  {
    EndsNoNumber();
    DigitsAre(text, ds);
    hide IsHexDigit;
  }

  lemma HexAt(x: char, text: string, r: string)
    requires x == 'x' || x == 'X'
    ensures var s := "&#" + [x] + text + ";" + r;
      s == "&#" + [x] + (text + (";" + r)) && EntityAt(s) == NumericHit(s, 3, IsHexDigit, 16)
  {
    hide NumericHit;
  }

  /** A hexadecimal entity is the character of its number. */
  lemma {:induction false} HexDecoded(x: char, text: string, ds: seq<nat>, r: string)
    requires (x == 'x' || x == 'X') && ds != [] && AreDigits(text, ds)
    ensures DecodeEntities("&#" + [x] + text + ";" + r) == CharOf(ValueOf(ds, 16)) + DecodeEntities(r)
  {
    hide *;
    var head := "&#" + [x];
    HexDigitsAre(text, ds);
    NumberScanned(head, text, ds, r, IsHexDigit, 16);
    HexAt(x, text, r);
    EntityTaken(head + text + ";", r, CharOf(ValueOf(ds, 16)));
  }

  // ---- Names

  /** The names the escapers use. */
  const ESCAPES: map<string, string> := map["amp" := "&", "lt" := "<", "gt" := ">", "quot" := "\""]

  /** All names known. */
  const NAMES: map<string, string> := OTHER_ENTITIES + ESCAPES

  predicate IsEntityName(name: string) {
    && name != "" && ('a' <= name[0] <= 'z' || 'A' <= name[0] <= 'Z')
    && forall i | 0 <= i < |name| :: 'a' <= name[i] <= 'z' || 'A' <= name[i] <= 'Z' || '0' <= name[i] <= '9'
  }

  /** A name as written, or in lower case; an unknown one stays. */
  function Meaning(name: string): string {
    if name in NAMES then NAMES[name]
    else if Fold(name) in NAMES then NAMES[Fold(name)]
    else "&" + name + ";"
  }

  lemma EscapeNamed(name: string)
    ensures EscapeEntity(name) == if name in ESCAPES then Some(ESCAPES[name]) else None
  {
    hide *;
    if name == "amp" || name == "lt" || name == "gt" || name == "quot" {
      FourNamed();
    } else {
      OtherName(name);
    }
  }

  lemma FourNamed()
    ensures EscapeEntity("amp") == Some("&") && EscapeEntity("lt") == Some("<")
    ensures EscapeEntity("gt") == Some(">") && EscapeEntity("quot") == Some("\"")
    ensures "amp" in ESCAPES && "lt" in ESCAPES && "gt" in ESCAPES && "quot" in ESCAPES
    ensures ESCAPES["amp"] == "&" && ESCAPES["lt"] == "<" && ESCAPES["gt"] == ">" && ESCAPES["quot"] == "\""
  {
    assert "amp"[0] == 'a' && "lt"[0] == 'l' && "gt"[0] == 'g' && "quot"[0] == 'q';
  }

  lemma OtherName(name: string)
    requires name != "amp" && name != "lt" && name != "gt" && name != "quot"
    ensures EscapeEntity(name).None? && name !in ESCAPES
  {
  }

  lemma NamedIs(name: string)
    ensures NamedEntity(name) == if name in NAMES then Some(NAMES[name]) else None
  {
    EscapeNamed(name);
    hide EscapeEntity, ESCAPES, OTHER_ENTITIES;
  }

  lemma LowerName(name: string)
    requires IsEntityName(name)
    ensures Lower(name) == Fold(name)
  {
  }

  lemma NamedTextIs(name: string)
    requires IsEntityName(name)
    ensures NamedText(name) == Meaning(name)
  {
    hide NamedEntity, IsEntityName, NAMES, Fold, Lower;
    LowerName(name);
    NamedIs(name);
    NamedIs(Fold(name));
  }

  lemma NameAt(name: string, r: string)
    requires IsEntityName(name)
    ensures var s := "&" + name + ";" + r; EntityAt(s) == Some(Hit(|"&" + name + ";"|, NamedText(name)))
  {
    var s, k := "&" + name + ";" + r, 1 + |name|;
    NameEnds(name, r);
    hide Run, NamedText;
    assert s[1..] == name + (";" + r) && s[1] == name[0] && s[k] == ';' && s[1..k] == name;
  }

  lemma {:induction false} NameEnds(name: string, r: string)
    requires IsEntityName(name)
    ensures Run(name + (";" + r), IsAlnum) == |name|
  {
    RunIs(name + (";" + r), IsAlnum, |name|);
  }

  /** A named entity is what its name means. */
  lemma NameDecoded(name: string, r: string)
    requires IsEntityName(name)
    ensures DecodeEntities("&" + name + ";" + r) == Meaning(name) + DecodeEntities(r)
  {
    hide *;
    NameAt(name, r);
    NamedTextIs(name);
    EntityTaken("&" + name + ";", r, Meaning(name));
  }

  // ---- Everything else

  /** Text without `&` stays. */
  lemma PlainDecoded(t: string, r: string)
    requires '&' !in t
    ensures DecodeEntities(t + r) == t + DecodeEntities(r)
  {
    forall i | 0 <= i < |t| ensures EntityAt(t[i..] + r).None? {
      assert (t[i..] + r)[0] == t[i];
    }
    hide EntityAt;
    ReplaceAllCopies(t, r, EntityAt);
  }

  /** `s` starts with an entity: `&`, a number or a name, and `;`. */
  ghost predicate StartsEntity(s: string) {
    || (exists text: string, ds: seq<nat>, r: string ::
          ds != [] && AreDigits(text, ds) && AreBelow(ds, 10) && s == "&#" + text + ";" + r)
    || (exists x: char, text: string, ds: seq<nat>, r: string ::
          (x == 'x' || x == 'X') && ds != [] && AreDigits(text, ds) && s == "&#" + [x] + text + ";" + r)
    || exists name: string, r: string :: IsEntityName(name) && s == "&" + name + ";" + r
  }

  function DigitsOf(text: string): (ds: seq<nat>)
    requires forall i | 0 <= i < |text| :: IsHexDigit(text[i])
    ensures |ds| == |text|
  {
    seq(|text|, i requires 0 <= i < |text| => DigitValue(text[i]))
  }

  lemma DigitWrites(c: char)
    requires IsHexDigit(c)
    ensures var d := DigitValue(c); d < 16 && (c == DIGITS[d] || c == CAPITALS[d]) && (IsDigit(c) ==> d < 10)
  {
  }

  lemma DigitsWrite(text: string)
    requires forall i | 0 <= i < |text| :: IsHexDigit(text[i])
    ensures AreDigits(text, DigitsOf(text)) && ((forall i | 0 <= i < |text| :: IsDigit(text[i])) ==> AreBelow(DigitsOf(text), 10))
  {
    forall i | 0 <= i < |text|
      ensures DigitsOf(text)[i] < 16 && (text[i] == DIGITS[DigitsOf(text)[i]] || text[i] == CAPITALS[DigitsOf(text)[i]])
      ensures IsDigit(text[i]) ==> DigitsOf(text)[i] < 10
    {
      DigitWrites(text[i]);
    }
    hide IsHexDigit, DigitValue, IsDigit;
  }

  lemma NumberCut(s: string, start: nat, p: char -> bool, radix: nat) returns (text: string, r: string)
    requires start <= |s| && (forall c: char :: p(c) ==> IsHexDigit(c)) && NumericHit(s, start, p, radix).Some?
    ensures text != "" && (forall i | 0 <= i < |text| :: p(text[i])) && s == s[..start] + text + ";" + r
  {
    hide IsHexDigit, ParseInt, CodePointText;
    var n := Run(s[start..], p);
    text, r := s[start..][..n], s[start + n + 1..];
    assert s == s[..start] + s[start..start + n] + [s[start + n]] + s[start + n + 1..];
    assert text == s[start..start + n];
  }

  lemma DecimalStarts(s: string)
    requires |s| >= 2 && s[0] == '&' && s[1] == '#' && NumericHit(s, 2, IsDigit, 10).Some?
    ensures StartsEntity(s)
  {
    EndsNoNumber();
    hide NumericHit, AreDigits, IsHexDigit, IsDigit, IsEntityName;
    var text, r := NumberCut(s, 2, IsDigit, 10);
    assert forall i | 0 <= i < |text| :: IsHexDigit(text[i]);
    DigitsWrite(text);
    assert s[..2] == "&#";
    assert s == "&#" + text + ";" + r && DigitsOf(text) != [];
  }

  lemma HexStarts(s: string)
    requires |s| > 2 && s[0] == '&' && s[1] == '#' && (s[2] == 'x' || s[2] == 'X') && NumericHit(s, 3, IsHexDigit, 16).Some?
    ensures StartsEntity(s)
  {
    hide NumericHit, AreDigits, IsHexDigit, IsDigit, IsEntityName;
    var text, r := NumberCut(s, 3, IsHexDigit, 16);
    DigitsWrite(text);
    assert s[..3] == "&#" + [s[2]];
    assert s == "&#" + [s[2]] + text + ";" + r && DigitsOf(text) != [];
  }

  lemma NameStarts(s: string)
    requires |s| >= 2 && s[0] == '&' && IsLetter(s[1])
    requires var k := 1 + Run(s[1..], IsAlnum); k < |s| && s[k] == ';'
    ensures StartsEntity(s)
  {
    var n := Run(s[1..], IsAlnum);
    var name, r := s[1..][..n], s[n + 2..];
    assert name[0] == s[1] && IsEntityName(name);
    hide Run, IsEntityName, AreDigits;
    assert s == [s[0]] + s[1..1 + n] + [s[n + 1]] + s[n + 2..] && name == s[1..1 + n];
    assert s == "&" + name + ";" + r;
  }

  lemma EntityStarts(s: string)
    requires EntityAt(s).Some?
    ensures StartsEntity(s)
  {
    hide StartsEntity, NumericHit, IsLetter, Run;
    if s[1] == '#' {
      if |s| > 2 && (s[2] == 'x' || s[2] == 'X') {
        HexStarts(s);
      } else {
        DecimalStarts(s);
      }
    } else {
      NameStarts(s);
    }
  }

  /** `&` that starts no entity stays. */
  lemma StrayDecoded(r: string)
    requires !StartsEntity("&" + r)
    ensures DecodeEntities("&" + r) == "&" + DecodeEntities(r)
  {
    hide EntityAt, StartsEntity;
    var s := "&" + r;
    if EntityAt(s).Some? {
      EntityStarts(s);
    }
    assert s[1..] == r;
  }
}
