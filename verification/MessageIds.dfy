/** The Message-ID a delivery works with (`extractMsgId` of `workers/index.ts`),
    and which headers give one that dedup knows again. */
module MessageIds {
  import opened Strings
  import opened InboundClaims

  predicate IsNotSpace(c: char) {
    !IsSpace(c)
  }

  /** `trim().split(/\s+/)[0]` */
  function FirstWord(s: string): string {
    var t := Trim(s);
    t[..Run(t, IsNotSpace)]
  }

  function ExtractMsgId(header: string): string {
    match Bracketed(header)
    case Some(inner) => inner
    case None => FirstWord(header)
  }

  /** `originalMessageId`: nothing for an absent or empty header. */
  function OriginalMessageId(header: string): Option<string> {
    if header == "" then None else Some(ExtractMsgId(header))
  }

  lemma TrimShrinks(s: string)
    ensures |Trim(s)| <= |s| && (|Trim(s)| == |s| ==> Trim(s) == s)
  {
  }

  /** The Message-IDs normalizing does not change: no white space and no bracket
      at the ends. */
  lemma CanonicalIs(m: string)
    ensures IsCanonical(m) <==>
      m != "" && !IsSpace(m[0]) && !IsSpace(m[|m| - 1]) && m[0] != '<' && m[|m| - 1] != '>'
  {
    TrimShrinks(m);
    TrimEnds(m);
    if m != "" && !IsSpace(m[0]) && !IsSpace(m[|m| - 1]) {
      TrimStable(m);
    }
    hide Trim, IsSpace;
  }

  lemma {:induction false} BracketedInner(s: string)
    ensures Bracketed(s).Some? ==> '>' !in Bracketed(s).value
  {
    if s != "" {
      BracketedInner(s[1..]);
    }
  }

  /** What the header says, before anything is normalized: the first brackets
      enclose an id without white space and `<` at its ends, or, without
      brackets, its first word starts with no `<` and ends with no `>`. */
  predicate IsCleanHeader(header: string) {
    match Bracketed(header)
    case Some(inner) => inner[0] != '<' && !IsSpace(inner[0]) && !IsSpace(inner[|inner| - 1])
    case None =>
      var word := FirstWord(header);
      word != "" && word[0] != '<' && word[|word| - 1] != '>'
  }

  /** Exactly the clean headers give a canonical Message-ID. */
  lemma ExtractedCanonicalIff(header: string)
    ensures IsCanonical(ExtractMsgId(header)) <==> IsCleanHeader(header)
  {
    CanonicalIs(ExtractMsgId(header));
    BracketedInner(header);
    hide Trim, IsCanonical, IsSpace;
  }

  const DOUBLED := "<<a@b>"

  /** A doubled bracket is left at the front. */
  lemma DoubledBracket()
    ensures ExtractMsgId(DOUBLED) == "<a@b" && !IsCleanHeader(DOUBLED)
  {
    var s := DOUBLED;
    assert s[1..][4] == '>' && s[1..][..4] == "<a@b";
    IndexOfIs(s[1..], '>', 4);
  }
}
