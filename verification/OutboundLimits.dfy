/** The size of an outbound message (`shared/outbound-limits.ts`) and the base64
    text its attachments travel as (`shared/compose-attachments.ts`). */
module OutboundLimits {
  import opened Strings
  import opened Utf8

  // ---- Base64

  /** The alphabet of table 1 of RFC 4648. */
  function Symbol(n: int): char
    requires 0 <= n < 64
  {
    if n < 26 then (n + 65) as char
    else if n < 52 then (n + 71) as char
    else if n < 62 then (n - 4) as char
    else if n == 62 then '+' else '/'
  }

  /** One group of section 4 of RFC 4648, without its padding. */
  function Group(bs: seq<Byte>): (r: string)
    requires 1 <= |bs| <= 3
    ensures |r| == |bs| + 1
  {
    var a := bs[0];
    var b := if |bs| > 1 then bs[1] else 0;
    var c := if |bs| > 2 then bs[2] else 0;
    var all := [Symbol(a / 4), Symbol(a % 4 * 16 + b / 16), Symbol(b % 16 * 4 + c / 64), Symbol(c % 64)];
    all[..|bs| + 1]
  }

  function Padding(n: nat): string {
    if n % 3 == 1 then "==" else if n % 3 == 2 then "=" else ""
  }

  function Symbols(bs: seq<Byte>): string
    decreases |bs|
  {
    if bs == [] then "" else if |bs| <= 3 then Group(bs) else Group(bs[..3]) + Symbols(bs[3..])
  }

  /** `btoa`, or a buffer's `toString("base64")`. */
  function Base64(bs: seq<Byte>): string {
    Symbols(bs) + Padding(|bs|)
  }

  const CHUNK: nat := 0x8000

  /** Bytes to base64 through a binary string built chunk by chunk. */
  method BytesToBase64(bytes: seq<Byte>) returns (text: string)
    ensures text == Base64(bytes)
  {
    var binary: seq<Byte> := [];
    var i := 0;
    while i < |bytes|
      invariant 0 <= i
      invariant binary == bytes[..if i < |bytes| then i else |bytes|]
    {
      var end := if i + CHUNK < |bytes| then i + CHUNK else |bytes|;
      assert bytes[..end] == bytes[..i] + bytes[i..end];
      binary := binary + bytes[i..end];
      i := i + CHUNK;
    }
    assert bytes[..|bytes|] == bytes;
    text := Base64(binary);
  }

  function WithoutSpace(s: string): string {
    if s == "" then "" else (if IsSpace(s[0]) then "" else [s[0]]) + WithoutSpace(s[1..])
  }

  predicate EndsWith(s: string, tail: string) {
    |tail| <= |s| && s[|s| - |tail|..] == tail
  }

  function Base64DecodedByteLength(base64: string): int {
    var cleaned := WithoutSpace(base64);
    if cleaned == "" then 0
    else
      var padding := if EndsWith(cleaned, "==") then 2 else if EndsWith(cleaned, "=") then 1 else 0;
      var n := |cleaned| * 3 / 4 - padding;
      if n < 0 then 0 else n
  }

  // ---- Reading base64

  function SymbolValue(c: char): int {
    if 'A' <= c <= 'Z' then c as int - 65
    else if 'a' <= c <= 'z' then c as int - 71
    else if '0' <= c <= '9' then c as int + 4
    else if c == '+' then 62 else if c == '/' then 63 else -1
  }

  /** The bytes of a group of two to four symbols. */
  function ReadGroup(s: string): seq<int>
    requires 2 <= |s| <= 4
  {
    var p, q := SymbolValue(s[0]), SymbolValue(s[1]);
    var r := if |s| > 2 then SymbolValue(s[2]) else 0;
    var t := if |s| > 3 then SymbolValue(s[3]) else 0;
    [p * 4 + q / 16, q % 16 * 16 + r / 4, r % 4 * 64 + t][..|s| - 1]
  }

  function ReadSymbols(s: string): seq<int>
    decreases |s|
  {
    if |s| < 2 then [] else if |s| <= 4 then ReadGroup(s) else ReadGroup(s[..4]) + ReadSymbols(s[4..])
  }

  lemma SymbolReads(n: int)
    requires 0 <= n < 64
    ensures SymbolValue(Symbol(n)) == n
  {
  }

  lemma BitsReadBack(a: int, b: int, c: int)
    requires 0 <= a < 256 && 0 <= b < 256 && 0 <= c < 256
    ensures var p, q, r := a / 4, a % 4 * 16 + b / 16, b % 16 * 4 + c / 64;
      && p < 64 && q < 64 && r < 64
      && p * 4 + q / 16 == a && q % 16 * 16 + r / 4 == b && r % 4 * 64 + c % 64 == c
  {
    assert (a % 4 * 16 + b / 16) / 16 == a % 4 && (a % 4 * 16 + b / 16) % 16 == b / 16;
    assert (b % 16 * 4 + c / 64) / 4 == b % 16 && (b % 16 * 4 + c / 64) % 4 == c / 64;
  }

  lemma GroupReads(bs: seq<Byte>)
    requires 1 <= |bs| <= 3
    ensures ReadGroup(Group(bs)) == bs
  {
    hide Symbol, SymbolValue;
    var a := bs[0];
    var b := if |bs| > 1 then bs[1] else 0;
    var c := if |bs| > 2 then bs[2] else 0;
    BitsReadBack(a, b, c);
    SymbolReads(a / 4);
    SymbolReads(a % 4 * 16 + b / 16);
    SymbolReads(b % 16 * 4 + c / 64);
    SymbolReads(c % 64);
    assert bs == [a, b, c][..|bs|];
  }

  /** The symbols read back as the bytes. */
  lemma {:induction false} SymbolsReadBack(bs: seq<Byte>)
    ensures ReadSymbols(Symbols(bs)) == bs
    decreases |bs|
  {
    if |bs| > 3 {
      var g, rest := Group(bs[..3]), Symbols(bs[3..]);
      GroupReads(bs[..3]);
      SymbolsReadBack(bs[3..]);
      SymbolsStart(bs[3..]);
      hide Group, ReadGroup, Symbols;
      assert (g + rest)[..4] == g && (g + rest)[4..] == rest;
      assert bs == bs[..3] + bs[3..];
    } else if bs != [] {
      GroupReads(bs);
    }
  }

  lemma {:induction false} SymbolsStart(bs: seq<Byte>)
    requires bs != []
    ensures |Symbols(bs)| >= 2
  {
  }

  // ---- The size is exact

  predicate IsSymbol(c: char) {
    IsAlnum(c) || c == '+' || c == '/'
  }

  lemma SymbolIs(n: int)
    requires 0 <= n < 64
    ensures IsSymbol(Symbol(n))
  {
  }

  lemma GroupSymbols(bs: seq<Byte>)
    requires 1 <= |bs| <= 3
    ensures AllChars(Group(bs), IsSymbol)
  {
    var b := if |bs| > 1 then bs[1] else 0;
    var c := if |bs| > 2 then bs[2] else 0;
    SymbolIs(bs[0] / 4);
    SymbolIs(bs[0] % 4 * 16 + b / 16);
    SymbolIs(b % 16 * 4 + c / 64);
    SymbolIs(c % 64);
    hide Symbol, IsSymbol;
  }

  lemma {:induction false} SymbolsLength(bs: seq<Byte>)
    ensures |Symbols(bs)| == |bs| / 3 * 4 + (if |bs| % 3 == 0 then 0 else |bs| % 3 + 1)
    ensures AllChars(Symbols(bs), IsSymbol)
    decreases |bs|
  {
    hide Group, IsSymbol;
    if bs != [] {
      GroupSymbols(if |bs| <= 3 then bs else bs[..3]);
      if |bs| > 3 {
        SymbolsLength(bs[3..]);
      }
    }
  }

  /** `text` carries `bytes`: base64, padded or not, with any white space. */
  predicate Carries(text: string, bytes: seq<Byte>) {
    WithoutSpace(text) == Base64(bytes) || WithoutSpace(text) == Symbols(bytes)
  }

  lemma EndsAt(s: string)
    ensures EndsWith(s, "=") <==> s != "" && s[|s| - 1] == '='
    ensures EndsWith(s, "==") <==> |s| >= 2 && s[|s| - 1] == '=' && s[|s| - 2] == '='
  {
    if |s| >= 2 {
      assert s[|s| - 2..] == [s[|s| - 2], s[|s| - 1]];
    }
    if s != "" {
      assert s[|s| - 1..] == [s[|s| - 1]];
    }
  }

  lemma LastNoPadding(t: string)
    requires AllChars(t, IsSymbol) && t != ""
    ensures t[|t| - 1] != '='
  {
    assert IsSymbol(t[|t| - 1]);
  }

  lemma PaddingEnds(t: string, n: nat)
    requires AllChars(t, IsSymbol) && (n % 3 != 0 ==> t != "")
    ensures EndsWith(t + Padding(n), "==") <==> n % 3 == 1
    ensures n % 3 != 1 ==> (EndsWith(t + Padding(n), "=") <==> n % 3 == 2)
    ensures !EndsWith(t, "=") && !EndsWith(t, "==")
  {
    hide EndsWith, AllChars, IsSymbol;
    var s := t + Padding(n);
    EndsAt(s);
    EndsAt(t);
    if t != "" {
      LastNoPadding(t);
    }
    assert n % 3 == 0 ==> s == t;
  }

  /** The decoded length is exact for every byte array, padded or not, whatever
      white space was put in. */
  lemma DecodedLengthExact(text: string, bytes: seq<Byte>)
    requires Carries(text, bytes)
    ensures Base64DecodedByteLength(text) == |bytes|
  {
    SymbolsLength(bytes);
    var t, n := Symbols(bytes), |bytes|;
    PaddingEnds(t, n);
    hide Symbols, WithoutSpace, EndsWith, AllChars;
    assert n == n / 3 * 3 + n % 3;
    if bytes == [] {
      assert t == "" && Base64(bytes) == "" by { NoBytes(); }
    }
  }

  lemma NoBytes()
    ensures Symbols([]) == "" && Base64([]) == ""
  {
  }

  lemma {:induction false} SpaceAway(a: string, b: string)
    ensures WithoutSpace(a + b) == WithoutSpace(a) + WithoutSpace(b)
  {
    if a == "" {
      assert a + b == b;
    } else {
      TailConcat(a, b);
      SpaceAway(a[1..], b);
    }
  }

  lemma {:induction false} NoSpaceKept(s: string)
    requires forall i | 0 <= i < |s| :: !IsSpace(s[i])
    ensures WithoutSpace(s) == s
  {
    if s != "" {
      NoSpaceKept(s[1..]);
      assert s == [s[0]] + s[1..];
    }
  }

  lemma SymbolNoSpace(c: char)
    requires IsSymbol(c) || c == '='
    ensures !IsSpace(c)
  {
  }

  /** What the encoder writes carries the bytes, and still does with white space
      put in anywhere. */
  lemma EncodedCarries(bytes: seq<Byte>)
    ensures Carries(Base64(bytes), bytes)
  {
    SymbolsLength(bytes);
    var s := Base64(bytes);
    forall i | 0 <= i < |s| ensures !IsSpace(s[i]) {
      SymbolNoSpace(s[i]);
    }
    NoSpaceKept(s);
  }

  lemma {:induction false} SpaceDropped(a: string, space: string, b: string)
    requires AllChars(space, IsSpace)
    ensures WithoutSpace(a + space + b) == WithoutSpace(a + b)
  {
    hide *;
    SpaceAway(a + space, b);
    SpaceAway(a, space);
    SpaceAway(a, b);
    OnlySpace(space);
    assert WithoutSpace(a) + "" == WithoutSpace(a);
  }

  lemma SpaceInserted(text: string, i: nat, space: string, bytes: seq<Byte>)
    requires i <= |text| && AllChars(space, IsSpace) && Carries(text, bytes)
    ensures Carries(text[..i] + space + text[i..], bytes)
  {
    hide WithoutSpace, Base64, Symbols, AllChars;
    SpaceDropped(text[..i], space, text[i..]);
    assert text[..i] + text[i..] == text;
  }

  lemma {:induction false} OnlySpace(s: string)
    requires AllChars(s, IsSpace)
    ensures WithoutSpace(s) == ""
  {
    if s != "" {
      OnlySpace(s[1..]);
    }
  }

  // ---- The budget

  const MAX_OUTBOUND_MESSAGE_BYTES: nat := 5 * 1024 * 1024

  /** The parts of a message; an absent one is empty. */
  datatype Message = Message(html: string, text: string, attachments: seq<string>)

  function AttachmentBytes(contents: seq<string>): int {
    if contents == [] then 0
    else AttachmentBytes(contents[..|contents| - 1]) + Base64DecodedByteLength(contents[|contents| - 1])
  }

  function Estimate(m: Message): int {
    |Encode(m.html)| + |Encode(m.text)| + AttachmentBytes(m.attachments)
  }

  method EstimateOutboundMessageBytes(m: Message) returns (total: int)
    ensures total == Estimate(m)
  {
    total := 0;
    if m.html != "" {
      total := total + |Encode(m.html)|;
    }
    if m.text != "" {
      total := total + |Encode(m.text)|;
    }
    var body := total;
    for i := 0 to |m.attachments|
      invariant total == body + AttachmentBytes(m.attachments[..i])
    {
      assert m.attachments[..i + 1][..i] == m.attachments[..i];
      total := total + Base64DecodedByteLength(m.attachments[i]);
    }
    assert m.attachments[..|m.attachments|] == m.attachments;
  }

  function RemainingOutboundBudget(m: Message): int {
    var left := MAX_OUTBOUND_MESSAGE_BYTES - Estimate(m);
    if left < 0 then 0 else left
  }

  predicate AttachmentFitsBudget(byteLength: int, budget: int) {
    0 < byteLength <= budget
  }

  datatype Attachment = Attachment(bytes: seq<Byte>, content: string)

  /** Attaches each one that fits what is left. */
  function AttachAll(m: Message, files: seq<Attachment>): Message
    decreases |files|
  {
    if files == [] then m
    else
      var f := files[0];
      AttachAll(if AttachmentFitsBudget(|f.bytes|, RemainingOutboundBudget(m))
                then m.(attachments := m.attachments + [f.content]) else m, files[1..])
  }

  /** The sizes of those that fit. */
  function Attached(m: Message, files: seq<Attachment>): nat
    decreases |files|
  {
    if files == [] then 0
    else
      var f := files[0];
      if AttachmentFitsBudget(|f.bytes|, RemainingOutboundBudget(m))
      then |f.bytes| + Attached(m.(attachments := m.attachments + [f.content]), files[1..])
      else Attached(m, files[1..])
  }

  function LengthOfAll(parts: seq<seq<Byte>>): nat {
    if parts == [] then 0 else |parts[0]| + LengthOfAll(parts[1..])
  }

  lemma {:induction false} LengthOfLast(parts: seq<seq<Byte>>)
    requires parts != []
    ensures LengthOfAll(parts) == LengthOfAll(parts[..|parts| - 1]) + |parts[|parts| - 1]|
  {
    var n := |parts| - 1;
    if n == 0 {
      assert parts[..0] == [] && parts[1..] == [];
    } else {
      assert parts[1..][..n - 1] == parts[..n][1..] && parts[1..][n - 1] == parts[n];
      LengthOfLast(parts[1..]);
    }
  }

  lemma NothingAttached()
    ensures AttachmentBytes([]) == 0 && LengthOfAll([]) == 0
  {
  }

  lemma {:induction false} BytesOfLast(contents: seq<string>)
    requires contents != []
    ensures var n := |contents| - 1; AttachmentBytes(contents) == AttachmentBytes(contents[..n]) + Base64DecodedByteLength(contents[n])
  {
    hide Base64DecodedByteLength;
  }

  lemma {:induction false} AttachmentsExact(contents: seq<string>, parts: seq<seq<Byte>>)
    requires |contents| == |parts| && forall i | 0 <= i < |parts| :: Carries(contents[i], parts[i])
    ensures AttachmentBytes(contents) == LengthOfAll(parts)
  {
    hide *;
    if parts == [] {
      NothingAttached();
    } else {
      var n := |parts| - 1;
      DecodedLengthExact(contents[n], parts[n]);
      AttachmentsExact(contents[..n], parts[..n]);
      LengthOfLast(parts);
      BytesOfLast(contents);
    }
  }

  /** The estimate is the number of bytes of the body's parts and of everything
      attached. */
  lemma {:induction false} EstimateExact(m: Message, parts: seq<seq<Byte>>)
    requires |m.attachments| == |parts| && forall i | 0 <= i < |parts| :: Carries(m.attachments[i], parts[i])
    ensures Estimate(m) == LengthOfAll([Encode(m.html), Encode(m.text)] + parts)
  {
    hide Encode, Carries;
    AttachmentsExact(m.attachments, parts);
    var all := [Encode(m.html), Encode(m.text)] + parts;
    assert all[1..] == [Encode(m.text)] + parts && all[1..][1..] == parts;
  }

  /** Attaching files that each fit never goes past the cap, and the estimate
      grows by exactly their bytes; a message past the cap takes no more. */
  lemma {:induction false} AttachingStaysUnder(m: Message, files: seq<Attachment>)
    requires forall i | 0 <= i < |files| :: Carries(files[i].content, files[i].bytes)
    ensures Estimate(AttachAll(m, files)) <= 5_242_880 || AttachAll(m, files) == m
    ensures Estimate(AttachAll(m, files)) == Estimate(m) + Attached(m, files)
    decreases |files|
  {
    if files != [] {
      var f := files[0];
      var next := m.(attachments := m.attachments + [f.content]);
      DecodedLengthExact(f.content, f.bytes);
      assert next.attachments[..|m.attachments|] == m.attachments;
      hide Base64DecodedByteLength, Carries, Encode;
      if AttachmentFitsBudget(|f.bytes|, RemainingOutboundBudget(m)) {
        AttachingStaysUnder(next, files[1..]);
      } else {
        AttachingStaysUnder(m, files[1..]);
      }
    }
  }
}
