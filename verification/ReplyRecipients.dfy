/** Who a reply goes to (`shared/reply-recipients.ts`). An absent address or
    list is empty. */
module ReplyRecipients {
  import opened Strings

  /** `toLowerCase`. */
  type Fold = string -> string

  function TrimmedParts(parts: seq<string>): seq<string> {
    if parts == [] then []
    else (if Trim(parts[0]) == "" then [] else [Trim(parts[0])]) + TrimmedParts(parts[1..])
  }

  function SplitAddressList(value: string): seq<string> {
    TrimmedParts(Split(value, ','))
  }

  function NormalizeAddress(address: string, fold: Fold): string {
    var trimmed := Trim(address);
    if trimmed == "" then ""
    else fold(Trim(match Bracketed(trimmed) case Some(inner) => inner case None => trimmed))
  }

  predicate IsSameAddress(a: string, b: string, fold: Fold) {
    b != "" && NormalizeAddress(a, fold) != "" && NormalizeAddress(a, fold) == NormalizeAddress(b, fold)
  }

  // ---- Unique addresses

  /** The address compared: that of the trimmed text. */
  function Key(address: string, fold: Fold): string {
    NormalizeAddress(Trim(address), fold)
  }

  /** The excluded key; empty for none. */
  function Excluded(exclude: string, fold: Fold): string {
    if exclude == "" then "" else NormalizeAddress(exclude, fold)
  }

  /** The key an entry counts under, if it does. */
  function WantedKey(address: string, excluded: string, fold: Fold): Option<string> {
    var key := Key(address, fold);
    if Trim(address) == "" || key == "" || (excluded != "" && key == excluded) then None else Some(key)
  }

  /** One of the first `n` entries counts under `key`. */
  predicate HasKey(addresses: seq<string>, n: nat, excluded: string, fold: Fold, key: string)
    requires n <= |addresses|
  {
    n > 0 && (WantedKey(addresses[n - 1], excluded, fold) == Some(key) || HasKey(addresses, n - 1, excluded, fold, key))
  }

  /** Entry `i` counts, and is the first one under its key. */
  predicate IsFirst(addresses: seq<string>, i: nat, excluded: string, fold: Fold)
    requires i < |addresses|
  {
    var key := WantedKey(addresses[i], excluded, fold);
    key.Some? && !HasKey(addresses, i, excluded, fold, key.value)
  }

  /** The first entries of their key among the first `n`, trimmed. */
  function Firsts(addresses: seq<string>, n: nat, excluded: string, fold: Fold): seq<string>
    requires n <= |addresses|
  {
    if n == 0 then []
    else
      var before := Firsts(addresses, n - 1, excluded, fold);
      if IsFirst(addresses, n - 1, excluded, fold) then before + [Trim(addresses[n - 1])] else before
  }

  function Unique(addresses: seq<string>, exclude: string, fold: Fold): seq<string> {
    Firsts(addresses, |addresses|, Excluded(exclude, fold), fold)
  }

  method UniqueAddresses(addresses: seq<string>, exclude: string, fold: Fold) returns (result: seq<string>)
    ensures result == Unique(addresses, exclude, fold)
  {
    hide Trim, NormalizeAddress;
    result := [];
    var seen: set<string> := {};
    var excluded := if exclude != "" then NormalizeAddress(exclude, fold) else "";
    for i := 0 to |addresses|
      invariant result == Firsts(addresses, i, excluded, fold)
      invariant forall key :: key in seen <==> HasKey(addresses, i, excluded, fold, key)
    {
      var trimmed := Trim(addresses[i]);
      if trimmed == "" {
        continue;
      }
      var normalized := NormalizeAddress(trimmed, fold);
      if normalized == "" || (excluded != "" && normalized == excluded) || normalized in seen {
        continue;
      }
      seen := seen + {normalized};
      result := result + [trimmed];
    }
  }

  // ---- What unique addresses are

  lemma TrimAgain(s: string)
    ensures Trim(Trim(s)) == Trim(s)
  {
    TrimEnds(s);
    TrimStable(Trim(s));
  }

  /** Trimming does not change how an address counts. */
  /** A plain address is compared as it is, without white space around it. */
  lemma BareKey(before: string, address: string, after: string, fold: Fold)
    requires AllChars(before, IsSpace) && AllChars(after, IsSpace) && '<' !in address
    requires address != "" && !IsSpace(address[0]) && !IsSpace(address[|address| - 1])
    ensures Key(before + address + after, fold) == fold(address)
  {
    TrimAround(before, address, after);
    TrimStable(address);
    NoneBracketed(address);
    hide Trim, Bracketed, AllChars, IsSpace;
  }

  /** An address in brackets is compared, without the name before it and what
      follows it. */
  lemma BracketKey(before: string, name: string, inner: string, rest: string, after: string, fold: Fold)
    requires AllChars(before, IsSpace) && AllChars(after, IsSpace)
    requires '<' !in name && inner != "" && '>' !in inner
    requires (name != "" ==> !IsSpace(name[0])) && (rest != "" ==> !IsSpace(rest[|rest| - 1]))
    ensures Key(before + (name + ("<" + inner + ">" + rest)) + after, fold) == fold(Trim(inner))
  {
    var core := name + ("<" + inner + ">" + rest);
    BracketEnds(name, inner, rest);
    TrimAround(before, core, after);
    TrimStable(core);
    BracketFound(name, inner, rest);
    hide Trim, Bracketed, AllChars, IsSpace;
  }

  lemma BracketEnds(name: string, inner: string, rest: string)
    requires (name != "" ==> !IsSpace(name[0])) && (rest != "" ==> !IsSpace(rest[|rest| - 1]))
    ensures var core := name + ("<" + inner + ">" + rest);
      core != "" && !IsSpace(core[0]) && !IsSpace(core[|core| - 1])
  {
    BracketsNoSpace();
    hide IsSpace;
  }

  lemma BracketsNoSpace()
    ensures !IsSpace('<') && !IsSpace('>')
  {
  }

  lemma TrimmedKey(address: string, excluded: string, fold: Fold)
    ensures WantedKey(Trim(address), excluded, fold) == WantedKey(address, excluded, fold)
    ensures Key(Trim(address), fold) == Key(address, fold)
  {
    TrimAgain(address);
  }

  function Keys(addresses: seq<string>, fold: Fold): (keys: seq<string>)
    ensures |keys| == |addresses|
  {
    seq(|addresses|, i requires 0 <= i < |addresses| => Key(addresses[i], fold))
  }

  predicate HasNoDuplicates(keys: seq<string>) {
    forall i, j | 0 <= i < j < |keys| :: keys[i] != keys[j]
  }

  lemma {:induction false} FirstsAre(addresses: seq<string>, n: nat, excluded: string, fold: Fold)
    requires n <= |addresses|
    ensures var keys := Keys(Firsts(addresses, n, excluded, fold), fold);
      && HasNoDuplicates(keys)
      && forall key :: key in keys <==> HasKey(addresses, n, excluded, fold, key)
  {
    hide Trim, NormalizeAddress, Key;
    if n > 0 {
      FirstsAre(addresses, n - 1, excluded, fold);
      if IsFirst(addresses, n - 1, excluded, fold) {
        var before, x := Firsts(addresses, n - 1, excluded, fold), Trim(addresses[n - 1]);
        TrimmedKey(addresses[n - 1], excluded, fold);
        assert Keys(before + [x], fold) == Keys(before, fold) + [Key(x, fold)];
      }
    }
  }

  /** Some entry counts under `key`. */
  predicate Counts(addresses: seq<string>, exclude: string, fold: Fold, key: string) {
    exists i | 0 <= i < |addresses| :: WantedKey(addresses[i], Excluded(exclude, fold), fold) == Some(key)
  }

  lemma {:induction false} HasKeyIs(addresses: seq<string>, n: nat, excluded: string, fold: Fold, key: string)
    requires n <= |addresses|
    ensures HasKey(addresses, n, excluded, fold, key) <==>
      exists i | 0 <= i < n :: WantedKey(addresses[i], excluded, fold) == Some(key)
  {
    hide WantedKey;
    if n > 0 {
      HasKeyIs(addresses, n - 1, excluded, fold, key);
    }
  }

  /** Every address that counts appears exactly once, the excluded one never. */
  lemma UniqueIs(addresses: seq<string>, exclude: string, fold: Fold)
    ensures var keys := Keys(Unique(addresses, exclude, fold), fold);
      && HasNoDuplicates(keys)
      && (forall key :: key in keys <==> Counts(addresses, exclude, fold, key))
      && (Excluded(exclude, fold) != "" ==> Excluded(exclude, fold) !in keys)
  {
    var excluded := Excluded(exclude, fold);
    FirstsAre(addresses, |addresses|, excluded, fold);
    hide Trim, NormalizeAddress, Key;
    forall key: string ensures HasKey(addresses, |addresses|, excluded, fold, key) <==> Counts(addresses, exclude, fold, key) {
      HasKeyIs(addresses, |addresses|, excluded, fold, key);
    }
  }

  // ---- Reply-all

  datatype Original = Original(sender: string, recipient: string, cc: string)

  datatype Audience = Audience(to: seq<string>, cc: seq<string>)

  /** `filter` of the addresses whose key is not in `keys`. */
  function Others(addresses: seq<string>, keys: seq<string>, fold: Fold): seq<string> {
    if addresses == [] then []
    else
      var last := addresses[|addresses| - 1];
      Others(addresses[..|addresses| - 1], keys, fold)
      + (if NormalizeAddress(last, fold) in keys then [] else [last])
  }

  function ReplyAllAddresses(o: Original, self: string, fold: Fold): Audience {
    var to := Unique([o.sender] + SplitAddressList(o.recipient), self, fold);
    Audience(to, Others(Unique(SplitAddressList(o.cc), self, fold), Keys(to, fold), fold))
  }

  lemma {:induction false} HasKeyConcat(a: seq<string>, b: seq<string>, n: nat, excluded: string, fold: Fold, key: string)
    requires n <= |b|
    ensures HasKey(a + b, |a| + n, excluded, fold, key) <==>
      HasKey(a, |a|, excluded, fold, key) || HasKey(b, n, excluded, fold, key)
  {
    hide WantedKey;
    if n > 0 {
      HasKeyConcat(a, b, n - 1, excluded, fold, key);
    } else {
      HasKeyPrefix(a, b, |a|, excluded, fold, key);
    }
  }

  lemma {:induction false} HasKeyPrefix(a: seq<string>, b: seq<string>, n: nat, excluded: string, fold: Fold, key: string)
    requires n <= |a|
    ensures HasKey(a + b, n, excluded, fold, key) == HasKey(a, n, excluded, fold, key)
  {
    hide WantedKey;
    if n > 0 {
      HasKeyPrefix(a, b, n - 1, excluded, fold, key);
    }
  }

  lemma {:induction false} FirstsPrefix(a: seq<string>, b: seq<string>, n: nat, excluded: string, fold: Fold)
    requires n <= |a|
    ensures Firsts(a + b, n, excluded, fold) == Firsts(a, n, excluded, fold)
  {
    hide WantedKey, Trim;
    if n > 0 {
      FirstsPrefix(a, b, n - 1, excluded, fold);
      if WantedKey(a[n - 1], excluded, fold).Some? {
        HasKeyPrefix(a, b, n - 1, excluded, fold, WantedKey(a[n - 1], excluded, fold).value);
      }
    }
  }

  lemma {:induction false} OthersLast(addresses: seq<string>, x: string, keys: seq<string>, fold: Fold)
    ensures Others(addresses + [x], keys, fold)
         == Others(addresses, keys, fold) + (if NormalizeAddress(x, fold) in keys then [] else [x])
  {
    assert (addresses + [x])[..|addresses|] == addresses;
  }

  /** Unique addresses of two lists: those of the first, then the second's that
      the first does not have. */
  lemma {:induction false} FirstsConcat(a: seq<string>, b: seq<string>, n: nat, excluded: string, fold: Fold)
    requires n <= |b|
    ensures var to := Firsts(a, |a|, excluded, fold);
      Firsts(a + b, |a| + n, excluded, fold) == to + Others(Firsts(b, n, excluded, fold), Keys(to, fold), fold)
  {
    hide Trim, NormalizeAddress, Others, Keys, IsFirst, HasKey, WantedKey;
    var to := Firsts(a, |a|, excluded, fold);
    if n == 0 {
      FirstsPrefix(a, b, |a|, excluded, fold);
      OthersNone(to, Keys(to, fold), fold);
    } else {
      var before := Firsts(b, n - 1, excluded, fold);
      var x := Trim(b[n - 1]);
      FirstsConcat(a, b, n - 1, excluded, fold);
      FirstInBoth(a, b, n - 1, excluded, fold);
      OthersLast(before, x, Keys(to, fold), fold);
      assert (a + b)[|a| + n - 1] == b[n - 1];
      assert to + (Others(before, Keys(to, fold), fold) + [x]) == to + Others(before, Keys(to, fold), fold) + [x];
    }
  }

  lemma {:induction false} OthersNone(to: seq<string>, keys: seq<string>, fold: Fold)
    ensures to + Others([], keys, fold) == to
  {
  }

  lemma {:induction false} FirstInBoth(a: seq<string>, b: seq<string>, i: nat, excluded: string, fold: Fold)
    requires i < |b|
    ensures IsFirst(a + b, |a| + i, excluded, fold) <==>
      IsFirst(b, i, excluded, fold) && NormalizeAddress(Trim(b[i]), fold) !in Keys(Firsts(a, |a|, excluded, fold), fold)
  {
    FirstsAre(a, |a|, excluded, fold);
    var w := WantedKey(b[i], excluded, fold);
    assert (a + b)[|a| + i] == b[i];
    assert w.Some? ==> w.value == NormalizeAddress(Trim(b[i]), fold);
    hide Trim, NormalizeAddress, Keys, Firsts, HasKey, WantedKey;
    if w.Some? {
      HasKeyConcat(a, b, i, excluded, fold, w.value);
    }
  }

  /** Reply-all goes to the unique addresses of sender, To and Cc, in that order,
      split in two: each other person exactly once, oneself never. */
  lemma ReplyAllPartitions(o: Original, self: string, fold: Fold)
    ensures var r := ReplyAllAddresses(o, self, fold);
      var all := [o.sender] + SplitAddressList(o.recipient) + SplitAddressList(o.cc);
      && r.to + r.cc == Unique(all, self, fold)
      && HasNoDuplicates(Keys(r.to + r.cc, fold))
      && (forall key :: key in Keys(r.to + r.cc, fold) <==> Counts(all, self, fold, key))
      && (Excluded(self, fold) != "" ==> Excluded(self, fold) !in Keys(r.to + r.cc, fold))
  {
    hide Firsts, SplitAddressList, Others, Keys, Excluded, HasNoDuplicates, Counts;
    var a, b := [o.sender] + SplitAddressList(o.recipient), SplitAddressList(o.cc);
    FirstsConcat(a, b, |b|, Excluded(self, fold), fold);
    assert ReplyAllAddresses(o, self, fold).to + ReplyAllAddresses(o, self, fold).cc == Unique(a + b, self, fold);
    UniqueIs(a + b, self, fold);
  }

  // ---- Replies addressed to oneself

  /** A recipient field: one text or a list. */
  datatype Field = One(text: string) | Many(addresses: seq<string>)

  function Requested(to: Field): seq<string> {
    match to
    case One(text) => SplitAddressList(text)
    case Many(addresses) => addresses
  }

  function AsField(addresses: seq<string>): Field {
    if addresses == [] then One("") else if |addresses| == 1 then One(addresses[0]) else Many(addresses)
  }

  predicate IsOnlySelf(addresses: seq<string>, self: string, fold: Fold) {
    addresses != [] && forall i | 0 <= i < |addresses| :: IsSameAddress(addresses[i], self, fold)
  }

  function RewriteSelfReplyTo(to: Field, o: Original, self: string, fold: Fold): Field {
    if !IsOnlySelf(Requested(to), self, fold) || !IsSameAddress(o.sender, self, fold) then to
    else
      var corrected := Unique(SplitAddressList(o.recipient), self, fold);
      if corrected == [] then to else AsField(corrected)
  }

  lemma {:induction false} SplitFree(s: string, c: char)
    ensures forall i | 0 <= i < |Split(s, c)| :: c !in Split(s, c)[i]
  {
    if s != "" {
      SplitFree(s[1..], c);
    }
  }

  lemma {:induction false} SplitOne(s: string, c: char)
    requires c !in s
    ensures Split(s, c) == [s]
  {
    if s != "" {
      assert s == [s[0]] + s[1..];
      SplitOne(s[1..], c);
    }
  }

  lemma TrimFree(s: string, c: char)
    requires c !in s
    ensures c !in Trim(s)
  {
  }

  predicate IsEntry(s: string) {
    s != "" && Trim(s) == s && ',' !in s
  }

  lemma {:induction false} PartsAreEntries(parts: seq<string>)
    requires forall i | 0 <= i < |parts| :: ',' !in parts[i]
    ensures forall i | 0 <= i < |TrimmedParts(parts)| :: IsEntry(TrimmedParts(parts)[i])
  {
    if parts != [] {
      PartsAreEntries(parts[1..]);
      TrimAgain(parts[0]);
      TrimFree(parts[0], ',');
      hide Trim;
    }
  }

  lemma EntryAlone(s: string)
    requires IsEntry(s)
    ensures SplitAddressList(s) == [s]
  {
    SplitOne(s, ',');
    assert TrimmedParts([s]) == [s] + TrimmedParts([]) by {
      assert [s][1..] == [];
    }
  }

  predicate IsOther(s: string, excluded: string, fold: Fold) {
    IsEntry(s) && WantedKey(s, excluded, fold).Some?
  }

  lemma EntryTrimmed(s: string)
    requires IsEntry(s)
    ensures Trim(s) == s
  {
  }

  predicate AreOthers(list: seq<string>, excluded: string, fold: Fold) {
    forall i | 0 <= i < |list| :: IsOther(list[i], excluded, fold)
  }

  /** What `Firsts` lists comes from the list. */
  lemma {:induction false} FirstsFrom(addresses: seq<string>, n: nat, excluded: string, fold: Fold)
    requires n <= |addresses| && forall i | 0 <= i < |addresses| :: IsEntry(addresses[i])
    ensures AreOthers(Firsts(addresses, n, excluded, fold), excluded, fold)
  {
    hide IsOther, IsFirst, IsEntry, Trim;
    if n > 0 {
      FirstsFrom(addresses, n - 1, excluded, fold);
      FirstOther(addresses, n - 1, excluded, fold);
    }
  }

  lemma FirstOther(addresses: seq<string>, i: nat, excluded: string, fold: Fold)
    requires i < |addresses| && IsEntry(addresses[i])
    ensures IsFirst(addresses, i, excluded, fold) ==> IsOther(Trim(addresses[i]), excluded, fold)
  {
    EntryTrimmed(addresses[i]);
  }

  lemma WantedIsOther(address: string, self: string, fold: Fold)
    requires IsOther(address, Excluded(self, fold), fold)
    ensures IsEntry(address) && !IsSameAddress(address, self, fold)
  {
  }

  /** A retargeted reply goes to the original recipients and not to oneself. It
      stays self-mail exactly when it was, and the original is not one's own or
      went to nobody else. */
  lemma RewriteReachesOthers(to: Field, o: Original, self: string, fold: Fold)
    ensures var corrected := Unique(SplitAddressList(o.recipient), self, fold);
      var once := RewriteSelfReplyTo(to, o, self, fold);
      && (once != to ==> Requested(once) == corrected)
      && (once != to ==> forall i | 0 <= i < |Requested(once)| :: !IsSameAddress(Requested(once)[i], self, fold))
      && (IsOnlySelf(Requested(once), self, fold) <==>
            IsOnlySelf(Requested(to), self, fold) && (!IsSameAddress(o.sender, self, fold) || corrected == []))
      && RewriteSelfReplyTo(once, o, self, fold) == once
  {
    var corrected := Unique(SplitAddressList(o.recipient), self, fold);
    CorrectedAreOthers(o, self, fold);
    hide SplitAddressList, Unique, IsEntry, IsSameAddress;
    if corrected != [] {
      EntryAlone(corrected[0]);
      assert |corrected| == 1 ==> corrected == [corrected[0]];
      assert Requested(AsField(corrected)) == corrected;
      assert !IsOnlySelf(corrected, self, fold);
    }
  }

  /** A reply that goes to anyone else stays as it is, and so does a reply to a mail
      one did not send. */
  lemma OtherRepliesStay(to: Field, o: Original, self: string, fold: Fold)
    requires Requested(to) == [] || self == "" || NormalizeAddress(self, fold) == ""
          || NormalizeAddress(o.sender, fold) != NormalizeAddress(self, fold)
          || exists i | 0 <= i < |Requested(to)| :: NormalizeAddress(Requested(to)[i], fold) != NormalizeAddress(self, fold)
    ensures RewriteSelfReplyTo(to, o, self, fold) == to
  {
    hide NormalizeAddress, SplitAddressList, Unique;
    if IsOnlySelf(Requested(to), self, fold) {
      assert forall i | 0 <= i < |Requested(to)| :: IsSameAddress(Requested(to)[i], self, fold);
    }
  }

  lemma CorrectedAreOthers(o: Original, self: string, fold: Fold)
    ensures var corrected := Unique(SplitAddressList(o.recipient), self, fold);
      forall i | 0 <= i < |corrected| :: IsEntry(corrected[i]) && !IsSameAddress(corrected[i], self, fold)
  {
    var list := SplitAddressList(o.recipient);
    SplitFree(o.recipient, ',');
    PartsAreEntries(Split(o.recipient, ','));
    FirstsFrom(list, |list|, Excluded(self, fold), fold);
    var corrected := Unique(list, self, fold);
    hide Firsts, IsEntry, IsOther, IsSameAddress, Split, TrimmedParts, Excluded;
    forall i | 0 <= i < |corrected| ensures IsEntry(corrected[i]) && !IsSameAddress(corrected[i], self, fold) {
      WantedIsOther(corrected[i], self, fold);
    }
  }
}
