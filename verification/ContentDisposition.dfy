/** The download header (`attachmentContentDisposition` of
    `shared/attachment-risk.ts`) and its reader. */
module ContentDisposition {
  import opened Strings
  import opened Utf8

  const HEAD := "attachment; filename=\""
  const MIDDLE := "; filename*=UTF-8''"

  predicate IsFallbackChar(c: char) {
    ' ' <= c <= '~' && c != '"' && c != '\\'
  }

  /** `replace(/[^\x20-\x7e]|["\\]/g, "_")`; a character beyond the basic plane is
      two code units. */
  function Fallback(name: string): string {
    if name == "" then ""
    else (if IsFallbackChar(name[0]) then [name[0]] else if name[0] as int >= 0x10000 then "__" else "_") + Fallback(name[1..])
  }

  /** What `encodeURIComponent` leaves alone, without the characters `'()*` the
      second replace takes. */
  predicate IsPlain(c: char) {
    IsAlnum(c) || c == '-' || c == '_' || c == '.' || c == '!' || c == '~'
  }

  function HexDigit(n: int): char
    requires 0 <= n < 16
  {
    if n < 10 then (n + 48) as char else (n + 55) as char
  }

  function Escape(b: Byte): (r: string)
    ensures |r| == 3
  {
    ['%', HexDigit(b / 16), HexDigit(b % 16)]
  }

  function EscapeAll(bs: seq<Byte>): string {
    if bs == [] then "" else Escape(bs[0]) + EscapeAll(bs[1..])
  }

  function Encoded(name: string): string {
    if name == "" then ""
    else (if IsPlain(name[0]) then [name[0]] else EscapeAll(CharBytes(name[0]))) + Encoded(name[1..])
  }

  function NameOf(filename: Option<string>): string {
    if filename.None? || filename.value == "" then "attachment" else filename.value
  }

  function AttachmentContentDisposition(filename: Option<string>): string {
    var name := NameOf(filename);
    HEAD + (Fallback(name) + ("\"" + (MIDDLE + Encoded(name))))
  }

  // ---- Reading the header

  /** `attr-char` of section 3.2.1 of RFC 5987. */
  predicate IsAttrChar(c: char) {
    IsAlnum(c) || c == '!' || c == '#' || c == '$' || c == '&' || c == '+' || c == '-' || c == '.'
    || c == '^' || c == '_' || c == '`' || c == '|' || c == '~'
  }

  function HexValue(c: char): int {
    if IsDigit(c) then c as int - 48
    else if 'A' <= c <= 'F' then c as int - 55
    else if 'a' <= c <= 'f' then c as int - 87
    else -1
  }

  /** `value-chars` of RFC 5987: the bytes, when the text is of that form. */
  function ValueBytes(s: string): Option<seq<Byte>> {
    if s == "" then Some([])
    else if s[0] == '%' then
      if |s| < 3 || HexValue(s[1]) < 0 || HexValue(s[2]) < 0 then None
      else
        match ValueBytes(s[3..])
        case None => None
        case Some(bs) => Some([HexValue(s[1]) * 16 + HexValue(s[2])] + bs)
    else if IsAttrChar(s[0]) then
      match ValueBytes(s[1..])
      case None => None
      case Some(bs) => Some([s[0] as int] + bs)
    else None
  }

  /** Where a quoted string ends: at the first quote that no backslash escapes. */
  function QuoteEnd(s: string): (r: Option<nat>)
    ensures r.Some? ==> r.value < |s|
  {
    if s == "" then None
    else if s[0] == '"' then Some(0)
    else
      var n := if s[0] == '\\' then 2 else 1;
      if n > |s| then None
      else
        match QuoteEnd(s[n..])
        case None => None
        case Some(k) => Some(n + k)
  }

  /** What a client reads: the quoted file name and the exact one. */
  function ReadDisposition(header: string): Option<(string, string)> {
    if !StartsWith(header, "attachment; filename=\"") then None else
    var s := header[22..];
    match QuoteEnd(s)
    case None => None
    case Some(k) =>
      if !StartsWith(s[k + 1..], "; filename*=UTF-8''") then None else
      match ValueBytes(s[k + 1..][19..])
      case None => None
      case Some(bs) =>
        match Decode(bs)
        case None => None
        case Some(name) => Some((s[..k], name))
  }

  function Prepend(bs: seq<Byte>, more: Option<seq<Byte>>): Option<seq<Byte>> {
    match more
    case None => None
    case Some(rest) => Some(bs + rest)
  }

  lemma {:induction false} EscapeReads(b: Byte, tail: string)
    ensures ValueBytes(Escape(b) + tail) == Prepend([b], ValueBytes(tail))
  {
    var s := Escape(b) + tail;
    assert s[0] == '%' && s[1] == HexDigit(b / 16) && s[2] == HexDigit(b % 16) && s[3..] == tail;
    HexReads(b / 16);
    HexReads(b % 16);
    hide HexDigit, HexValue, Escape;
  }

  lemma HexReads(n: int)
    requires 0 <= n < 16
    ensures HexValue(HexDigit(n)) == n
  {
  }

  lemma PrependTwice(b: Byte, bs: seq<Byte>, more: Option<seq<Byte>>)
    ensures Prepend([b], Prepend(bs, more)) == Prepend([b] + bs, more)
    ensures Prepend([], more) == more
  {
    if more.Some? {
      assert [b] + (bs + more.value) == [b] + bs + more.value;
      assert [] + more.value == more.value;
    }
  }

  lemma {:induction false} EscapesRead(bs: seq<Byte>, rest: string)
    ensures ValueBytes(EscapeAll(bs) + rest) == Prepend(bs, ValueBytes(rest))
  {
    if bs == [] {
      assert EscapeAll(bs) + rest == rest;
      PrependTwice(0, bs, ValueBytes(rest));
    } else {
      hide ValueBytes, Escape, Prepend;
      var tail := EscapeAll(bs[1..]) + rest;
      assert EscapeAll(bs) + rest == Escape(bs[0]) + tail;
      EscapeReads(bs[0], tail);
      EscapesRead(bs[1..], rest);
      PrependTwice(bs[0], bs[1..], ValueBytes(rest));
      assert bs == [bs[0]] + bs[1..];
    }
  }

  /** The value is of the grammar, and its bytes are the name's. */
  lemma {:induction false} EncodedReads(name: string)
    ensures ValueBytes(Encoded(name)) == Some(Encode(name))
  {
    if name != "" {
      var rest := Encoded(name[1..]);
      EncodedReads(name[1..]);
      if IsPlain(name[0]) {
        assert ([name[0]] + rest)[1..] == rest;
        assert CharBytes(name[0]) == [name[0] as int];
      } else {
        EscapesRead(CharBytes(name[0]), rest);
      }
    }
  }

  lemma {:induction false} QuoteSkips(t: string, rest: string)
    requires AllChars(t, IsFallbackChar)
    ensures QuoteEnd(t + ("\"" + rest)) == Some(|t|)
  {
    if t == "" {
      assert t + ("\"" + rest) == "\"" + rest;
    } else {
      TailConcat(t, "\"" + rest);
      QuoteSkips(t[1..], rest);
    }
  }

  /** The fallback is plain ASCII without quotes and backslashes. */
  lemma {:induction false} FallbackPlain(name: string)
    ensures AllChars(Fallback(name), IsFallbackChar)
  {
    if name != "" {
      FallbackPlain(name[1..]);
    }
  }

  /** The fallback has the name's printable characters in place; any other is
      one `_` for each of its UTF-16 code units. */
  lemma {:induction false} FallbackAt(a: string, c: char, b: string)
    ensures Fallback(a + [c] + b) == Fallback(a) +
      (if ' ' <= c <= '~' && c != '"' && c != '\\' then [c] else if c < '\U{10000}' then "_" else "__") + Fallback(b)
  {
    var s := a + [c] + b;
    if a == "" {
      assert s[1..] == b;
    } else {
      assert s == [a[0]] + (a[1..] + [c] + b) && s[1..] == a[1..] + [c] + b;
      FallbackAt(a[1..], c, b);
    }
  }

  /** The header reads back for every file name: the quoted name cannot end early
      and the exact name is exact. */
  lemma DispositionReadsBack(filename: Option<string>)
    ensures var name := if filename == None || filename == Some("") then "attachment" else filename.value;
      ReadDisposition(AttachmentContentDisposition(filename)) == Some((Fallback(name), name))
  {
    var name := NameOf(filename);
    var tail := MIDDLE + Encoded(name);
    var s := Fallback(name) + ("\"" + tail);
    var header := HEAD + s;
    FallbackPlain(name);
    QuoteSkips(Fallback(name), tail);
    EncodedReads(name);
    EncodeReadsBack(name);
    HeaderSlices(HEAD, Fallback(name), MIDDLE, Encoded(name));
    hide Fallback, Encoded, QuoteEnd, ValueBytes, Decode, HEAD, MIDDLE;
    assert QuoteEnd(s) == Some(|Fallback(name)|);
  }

  lemma HeaderSlices(head: string, f: string, middle: string, e: string)
    ensures var tail := middle + e;
      var s := f + ("\"" + tail);
      && StartsWith(head + s, head) && (head + s)[|head|..] == s
      && s[..|f|] == f && s[|f| + 1..] == tail
      && StartsWith(tail, middle) && tail[|middle|..] == e
  {
  }
}
