/** UTF-8 as `TextEncoder` and `encodeURIComponent` write it, and its reader. */
module Utf8 {
  import opened Strings

  type Byte = b: int | 0 <= b < 256

  /** The bytes of a code point. */
  function CharBytes(c: char): (r: seq<Byte>)
    ensures 1 <= |r| <= 4
  {
    var n := c as int;
    if n < 0x80 then [n]
    else if n < 0x800 then [0xC0 + n / 64, 0x80 + n % 64]
    else if n < 0x10000 then [0xE0 + n / 4096, 0x80 + n / 64 % 64, 0x80 + n % 64]
    else [0xF0 + n / 262144, 0x80 + n / 4096 % 64, 0x80 + n / 64 % 64, 0x80 + n % 64]
  }

  function Encode(s: string): seq<Byte> {
    if s == "" then [] else CharBytes(s[0]) + Encode(s[1..])
  }

  predicate IsTail(b: Byte) {
    0x80 <= b < 0xC0
  }

  predicate IsScalar(n: int) {
    0 <= n < 0xD800 || 0xE000 <= n < 0x110000
  }

  /** How many bytes the sequence of a first byte has. */
  function SequenceLength(b: Byte): nat {
    if b < 0x80 then 1 else if 0xC0 <= b < 0xE0 then 2 else if 0xE0 <= b < 0xF0 then 3 else if 0xF0 <= b < 0xF8 then 4 else 0
  }

  function Two(a: int, b: int): int {
    (a - 0xC0) * 64 + (b - 0x80)
  }

  function Three(a: int, b: int, c: int): int {
    (a - 0xE0) * 4096 + (b - 0x80) * 64 + (c - 0x80)
  }

  function Four(a: int, b: int, c: int, d: int): int {
    (a - 0xF0) * 262144 + (b - 0x80) * 4096 + (c - 0x80) * 64 + (d - 0x80)
  }

  /** The code point at the head, if its bytes are well formed and no shorter
      form would do. */
  function HeadScalar(bs: seq<Byte>): int
    requires bs != []
  {
    var n := SequenceLength(bs[0]);
    if n == 0 || n > |bs| || exists i | 1 <= i < n :: !IsTail(bs[i]) then -1
    else if n == 1 then bs[0]
    else if n == 2 then
      var v := Two(bs[0], bs[1]);
      if v < 0x80 then -1 else v
    else if n == 3 then
      var v := Three(bs[0], bs[1], bs[2]);
      if v < 0x800 then -1 else v
    else
      var v := Four(bs[0], bs[1], bs[2], bs[3]);
      if v < 0x10000 then -1 else v
  }

  /** Strict decoding: nothing for bytes that are not UTF-8. */
  function Decode(bs: seq<Byte>): Option<string>
    decreases |bs|
  {
    if bs == [] then Some("")
    else
      var v := HeadScalar(bs);
      if !IsScalar(v) then None
      else
        var n := SequenceLength(bs[0]);
        if n == 0 || n > |bs| then None
        else
          match Decode(bs[n..])
          case None => None
          case Some(s) => Some([v as char] + s)
  }

  lemma DigitsOf(n: nat)
    ensures n / 4096 == n / 64 / 64 && n / 262144 == n / 4096 / 64
    ensures n == n / 64 * 64 + n % 64
    ensures n / 64 == n / 4096 * 64 + n / 64 % 64
    ensures n / 4096 == n / 262144 * 64 + n / 4096 % 64
  {
  }

  lemma CharReadsBack(c: char, rest: seq<Byte>)
    ensures var bs := CharBytes(c) + rest;
      SequenceLength(bs[0]) == |CharBytes(c)| && HeadScalar(bs) == c as int
  {
    var n := c as int;
    DigitsOf(n);
    var own := CharBytes(c);
    var bs := own + rest;
    assert forall i | 0 <= i < |own| :: bs[i] == own[i];
    if n < 0x80 {
    } else if n < 0x800 {
      assert Two(own[0], own[1]) == n;
    } else if n < 0x10000 {
      assert Three(own[0], own[1], own[2]) == n;
    } else {
      assert n / 262144 < 8;
      assert Four(own[0], own[1], own[2], own[3]) == n;
    }
  }

  /** Every string reads back from its bytes. */
  lemma {:induction false} EncodeReadsBack(s: string)
    ensures Decode(Encode(s)) == Some(s)
  {
    if s != "" {
      var rest := Encode(s[1..]);
      CharReadsBack(s[0], rest);
      EncodeReadsBack(s[1..]);
      assert (CharBytes(s[0]) + rest)[|CharBytes(s[0])|..] == rest;
      assert s == [s[0]] + s[1..];
    }
  }
}
