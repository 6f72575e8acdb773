/** Mailboxes named by their index in the URL (`shared/mailbox-url.ts`). */
module MailboxUrl {
  import opened Strings
  import opened IdOrder

  /** `decodeSegment`: percent-decoding, or the segment itself. */
  type Decoder = string -> string

  datatype Resolution =
    | Mailbox(mailboxId: string, index: nat)
    | Legacy(mailboxId: string, index: nat)
    | Unknown

  /** `findIndex` of an id that folds to `wanted`. */
  function FindFolded(ids: seq<string>, wanted: string): (r: Option<nat>)
    ensures r.Some? ==> r.value < |ids| && Lower(ids[r.value]) == wanted
    ensures r.None? ==> forall i | 0 <= i < |ids| :: Lower(ids[i]) != wanted
  {
    if ids == [] then None
    else if Lower(ids[0]) == wanted then Some(0)
    else match FindFolded(ids[1..], wanted)
      case None => None
      case Some(k) => Some(k + 1)
  }

  function ResolveIn(segment: string, ordered: seq<string>, decode: Decoder): Resolution {
    match ParseMailboxIndex(segment)
    case Some(index) => if index < |ordered| then Mailbox(ordered[index], index) else Unknown
    case None =>
      if segment == "" then Unknown
      else match FindFolded(ordered, Lower(Trim(decode(segment))))
        case None => Unknown
        case Some(index) => Legacy(ordered[index], index)
  }

  function ResolveMailboxRef(segment: string, ids: seq<string>, decode: Decoder): Resolution {
    ResolveIn(segment, Ordered(ids), decode)
  }

  datatype Outcome =
    | Show(mailboxId: string)
    | Redirect(ref: string, mailboxId: string)
    | Leave(fallbackRef: Option<string>)

  /** `reconcileMailboxRef`; an absent segment is empty, and so are no pinned and
      no last-used mailbox. */
  function ReconcileMailboxRef(
    segment: string, ids: seq<string>, pinned: string, lastUsed: string, decode: Decoder): Outcome
  {
    var ordered := Ordered(ids);
    var at := if pinned != "" then Position(ordered, pinned) else None;
    if at.Some? && ParseMailboxIndex(segment) != at then Redirect(Print(at.value), pinned)
    else
      match ResolveMailboxRef(segment, ordered, decode)
      case Mailbox(id, _) => Show(id)
      case Legacy(id, index) => Redirect(Print(index), id)
      case Unknown =>
        if lastUsed != "" && lastUsed in ordered then Leave(Some(Print(Position(ordered, lastUsed).value)))
        else if ordered == [] then Leave(None)
        else Leave(Some(Print(Position(ordered, ordered[0]).value)))
  }

  // ---- Redirects settle

  predicate IsAbsent(pinned: string, ordered: seq<string>) {
    pinned == "" || pinned !in ordered
  }

  /** An index below 10,000 names its mailbox, unless another one is pinned. */
  lemma {:induction false} ShowsAt(ids: seq<string>, k: nat, pinned: string, lastUsed: string, decode: Decoder)
    requires k < |ids| && k < 10000
    requires IsAbsent(pinned, Ordered(ids)) || Position(Ordered(ids), pinned) == Some(k)
    ensures ReconcileMailboxRef(Print(k), ids, pinned, lastUsed, decode) == Show(Ordered(ids)[k])
  {
    OrderedAgain(ids);
    IndexReadsBack(k);
    hide Ordered, ParseMailboxIndex, Print;
  }

  /** The cases of an outcome. */
  lemma {:induction false} OutcomeIs(segment: string, ids: seq<string>, pinned: string, lastUsed: string, decode: Decoder)
    ensures var ordered, o := Ordered(ids), ReconcileMailboxRef(segment, ids, pinned, lastUsed, decode);
      match o
      case Show(id) => ResolveIn(segment, ordered, decode).Mailbox? && ResolveIn(segment, ordered, decode).mailboxId == id
      case Redirect(ref, id) =>
        && id in ordered
        && ((pinned == id && ref == Print(Position(ordered, id).value))
            || (IsAbsent(pinned, ordered) && exists k: nat :: k < |ordered| && ordered[k] == id && ref == Print(k)))
      case Leave(ref) =>
        && IsAbsent(pinned, ordered)
        && (ref.None? <==> ordered == [])
        && (ref.Some? ==>
              var id := if lastUsed != "" && lastUsed in ordered then lastUsed else ordered[0];
              id in ordered && ref.value == Print(Position(ordered, id).value))
  {
    OrderedAgain(ids);
    var ordered := Ordered(ids);
    hide Ordered, ParseMailboxIndex, Print, Trim, Lower;
    if ordered != [] {
      assert ordered[0] in ordered;
    }
  }

  /** Which mailbox an outcome promises, if any. */
  function Promised(o: Outcome, ids: seq<string>, lastUsed: string): Option<string> {
    match o
    case Show(id) => Some(id)
    case Redirect(_, id) => Some(id)
    case Leave(_) =>
      if lastUsed != "" && lastUsed in Ordered(ids) then Some(lastUsed)
      else if ids == [] then None else Some(Ordered(ids)[0])
  }

  /** The URL an outcome leads to, if it is not the start page. */
  function Target(o: Outcome, segment: string): Option<string> {
    match o
    case Show(_) => Some(segment)
    case Redirect(ref, _) => Some(ref)
    case Leave(ref) => ref
  }

  /** With up to 10,000 mailboxes every outcome is settled after one hop: the URL
      it leads to shows the mailbox it promised, whether the pin is still there or
      not; only without mailboxes is it the start page. */
  lemma SettlesInOneHop(segment: string, ids: seq<string>, pinned: string, lastUsed: string, decode: Decoder, later: string)
    requires |ids| <= 10000 && (later == pinned || later == "")
    ensures var o := ReconcileMailboxRef(segment, ids, pinned, lastUsed, decode);
      && (Target(o, segment).None? <==> ids == [] && o.Leave?)
      && (Target(o, segment).Some? ==>
            && Promised(o, ids, lastUsed).Some?
            && ReconcileMailboxRef(Target(o, segment).value, ids, later, lastUsed, decode)
               == Show(Promised(o, ids, lastUsed).value))
  {
    var ordered, o := Ordered(ids), ReconcileMailboxRef(segment, ids, pinned, lastUsed, decode);
    OutcomeIs(segment, ids, pinned, lastUsed, decode);
    if o.Show? {
      ShownStays(segment, ids, pinned, lastUsed, decode);
    } else if o.Redirect? {
      hide ReconcileMailboxRef, Ordered, Print;
      if pinned == o.mailboxId && o.ref == Print(Position(ordered, o.mailboxId).value) {
        ShowsAt(ids, Position(ordered, o.mailboxId).value, later, lastUsed, decode);
      } else {
        var k: nat :| k < |ordered| && ordered[k] == o.mailboxId && o.ref == Print(k);
        ShowsAt(ids, k, later, lastUsed, decode);
      }
    } else if o.fallbackRef.Some? {
      hide ReconcileMailboxRef, Ordered, Print;
      var id := if lastUsed != "" && lastUsed in ordered then lastUsed else ordered[0];
      ShowsAt(ids, Position(ordered, id).value, later, lastUsed, decode);
    }
  }

  lemma ShownStays(segment: string, ids: seq<string>, pinned: string, lastUsed: string, decode: Decoder)
    requires ReconcileMailboxRef(segment, ids, pinned, lastUsed, decode).Show?
    ensures ReconcileMailboxRef(segment, ids, "", lastUsed, decode)
         == ReconcileMailboxRef(segment, ids, pinned, lastUsed, decode)
  {
    hide Ordered, ParseMailboxIndex, Print, ResolveIn;
  }

  /** Past 10,000 the redirect to a pinned mailbox leads to itself: exactly the
      indexes below settle. */
  lemma {:induction false} PinnedSettlesIff(segment: string, ids: seq<string>, pinned: string, lastUsed: string, decode: Decoder, k: nat)
    requires pinned != "" && Position(Ordered(ids), pinned) == Some(k) && ParseMailboxIndex(segment) != Some(k)
    ensures ReconcileMailboxRef(segment, ids, pinned, lastUsed, decode) == Redirect(Print(k), pinned)
    ensures ReconcileMailboxRef(Print(k), ids, pinned, lastUsed, decode)
         == if k < 10000 then Show(pinned) else Redirect(Print(k), pinned)
  {
    IndexReadsBack(k);
    if k < 10000 {
      ShowsAt(ids, k, pinned, lastUsed, decode);
    }
    hide Ordered, ParseMailboxIndex, Print, ResolveMailboxRef;
  }

  /** Outcomes depend on which ids there are, not on how they are listed. */
  lemma OrderDoesNotMatter(segment: string, a: seq<string>, b: seq<string>, pinned: string, lastUsed: string, decode: Decoder)
    requires multiset(a) == multiset(b)
    ensures ReconcileMailboxRef(segment, a, pinned, lastUsed, decode)
         == ReconcileMailboxRef(segment, b, pinned, lastUsed, decode)
  {
    OrderedAgree(a, b);
  }

  // ---- The list changes while a mailbox is open

  /** The segment in the URL and the mailbox on screen. */
  datatype View = View(segment: string, mailboxId: string)

  /** What the route shows after its list became `ids`: the open mailbox is
      pinned, and a redirect is followed. Without mailboxes nothing is shown. */
  function Changed(v: View, ids: seq<string>, lastUsed: string, decode: Decoder): Option<View> {
    var o := ReconcileMailboxRef(v.segment, ids, v.mailboxId, lastUsed, decode);
    match Target(o, v.segment)
    case None => None
    case Some(segment) =>
      match ReconcileMailboxRef(segment, ids, "", lastUsed, decode)
      case Show(id) => Some(View(segment, id))
      case _ => None
  }

  function AllChanged(v: View, lists: seq<seq<string>>, lastUsed: string, decode: Decoder): Option<View> {
    if lists == [] then Some(v)
    else
      match AllChanged(v, lists[..|lists| - 1], lastUsed, decode)
      case None => None
      case Some(w) => Changed(w, lists[|lists| - 1], lastUsed, decode)
  }

  /** A change keeps the open mailbox open at its index, as long as it is listed. */
  lemma {:induction false} ChangeKeeps(v: View, ids: seq<string>, lastUsed: string, decode: Decoder)
    requires v.mailboxId != "" && v.mailboxId in ids && |ids| <= 10000
    ensures var w := Changed(v, ids, lastUsed, decode);
      && w.Some? && w.value.mailboxId == v.mailboxId
      && ParseMailboxIndex(w.value.segment) == Position(Ordered(ids), v.mailboxId)
  {
    OrderedKeeps(ids, v.mailboxId);
    var k := Position(Ordered(ids), v.mailboxId).value;
    IndexReadsBack(k);
    PinnedOutcome(v.segment, ids, v.mailboxId, lastUsed, decode, k);
    assert Ordered(ids)[k] == v.mailboxId;
    hide Ordered, ParseMailboxIndex, Print, ReconcileMailboxRef, Position;
    var o := ReconcileMailboxRef(v.segment, ids, v.mailboxId, lastUsed, decode);
    var target := if ParseMailboxIndex(v.segment) == Some(k) then v.segment else Print(k);
    assert Target(o, v.segment) == Some(target) && ParseMailboxIndex(target) == Some(k);
    if target == v.segment && o.Show? {
      ShownStays(v.segment, ids, v.mailboxId, lastUsed, decode);
    } else {
      ShowsAt(ids, k, "", lastUsed, decode);
    }
    assert ReconcileMailboxRef(target, ids, "", lastUsed, decode) == Show(v.mailboxId);
  }

  lemma {:induction false} PinnedOutcome(segment: string, ids: seq<string>, pinned: string, lastUsed: string, decode: Decoder, k: nat)
    requires pinned != "" && Position(Ordered(ids), pinned) == Some(k)
    ensures ReconcileMailboxRef(segment, ids, pinned, lastUsed, decode)
         == if ParseMailboxIndex(segment) == Some(k) then Show(pinned) else Redirect(Print(k), pinned)
  {
    OrderedAgain(ids);
    hide Ordered, ParseMailboxIndex, Print, Trim, Lower;
  }

  /** Over any run of list edits the open mailbox stays open until it is removed. */
  lemma {:induction false} PinnedStaysShown(v: View, lists: seq<seq<string>>, lastUsed: string, decode: Decoder)
    requires v.mailboxId != ""
    requires forall i | 0 <= i < |lists| :: v.mailboxId in lists[i] && |lists[i]| <= 10000
    ensures var w := AllChanged(v, lists, lastUsed, decode);
      && w.Some? && w.value.mailboxId == v.mailboxId
      && (lists != [] ==>
            ParseMailboxIndex(w.value.segment) == Position(Ordered(lists[|lists| - 1]), v.mailboxId))
  {
    if lists != [] {
      var before := lists[..|lists| - 1];
      PinnedStaysShown(v, before, lastUsed, decode);
      hide Changed, Ordered, ParseMailboxIndex;
      ChangeKeeps(AllChanged(v, before, lastUsed, decode).value, lists[|lists| - 1], lastUsed, decode);
    }
  }

  // ---- Old links

  const PREFIX := "/mailbox/"

  predicate IsLineEnd(c: char) {
    c == '\n' || c == '\r' || c == '\U{2028}' || c == '\U{2029}'
  }

  predicate HasLineEnd(s: string) {
    exists i | 0 <= i < |s| :: IsLineEnd(s[i])
  }

  /** `/^\/mailbox\/([^\/]+)(\/.*)?$/`: the segment's length. */
  function MailboxPath(path: string): (r: Option<nat>)
    ensures r.Some? ==> |PREFIX| + r.value <= |path| && r.value > 0
  {
    if !StartsWith(path, PREFIX) then None else
    var n := Run(path[|PREFIX|..], IsNotSlash);
    var rest := path[|PREFIX| + n..];
    if n == 0 || HasLineEnd(rest) then None else Some(n)
  }

  function MailboxSegmentOf(path: string): Option<string> {
    match MailboxPath(path)
    case None => None
    case Some(n) => Some(path[|PREFIX|..|PREFIX| + n])
  }

  function WithMailboxRef(path: string, ref: string): string {
    match MailboxPath(path)
    case None => path
    case Some(n) => PREFIX + ref + path[|PREFIX| + n..]
  }

  /** The path an old link redirects to; the query is kept with a mailbox's. */
  function LegacyMailboxRedirect(path: string, search: string, ids: seq<string>, decode: Decoder): Option<(string, string)> {
    match MailboxSegmentOf(path)
    case None => None
    case Some(segment) =>
      if ParseMailboxIndex(segment).Some? then None
      else
        match ResolveMailboxRef(segment, ids, decode)
        case Legacy(_, index) => Some((WithMailboxRef(path, Print(index)), search))
        case _ => Some(("/", ""))
  }

  lemma SegmentIs(ref: string, rest: string)
    requires ref != "" && AllChars(ref, IsNotSlash) && !HasLineEnd(rest) && (rest == "" || rest[0] == '/')
    ensures MailboxSegmentOf(PREFIX + ref + rest) == Some(ref)
  {
    hide HasLineEnd, PREFIX;
    var q := PREFIX + ref + rest;
    assert q[..|PREFIX|] == PREFIX && q[|PREFIX|..] == ref + rest;
    RunIs(ref + rest, IsNotSlash, |ref|);
    hide Run, AllChars;
    assert q[|PREFIX| + |ref|..] == rest;
    assert q[|PREFIX|..|PREFIX| + |ref|] == ref;
  }

  lemma PathRest(path: string)
    requires MailboxPath(path).Some?
    ensures var rest := path[|PREFIX| + MailboxPath(path).value..];
      !HasLineEnd(rest) && (rest == "" || rest[0] == '/')
  {
    hide HasLineEnd, PREFIX;
    var n := MailboxPath(path).value;
    assert path[|PREFIX| + n..] == path[|PREFIX|..][n..];
  }

  lemma RefReplaced(path: string, ref: string)
    requires MailboxPath(path).Some? && ref != "" && AllChars(ref, IsNotSlash)
    ensures MailboxSegmentOf(WithMailboxRef(path, ref)) == Some(ref)
  {
    hide HasLineEnd, PREFIX, AllChars, MailboxSegmentOf, MailboxPath;
    PathRest(path);
    SegmentIs(ref, path[|PREFIX| + MailboxPath(path).value..]);
  }

  /** What an old link leads to is no old link: with up to 10,000 mailboxes a
      redirect is never redirected again, whatever the list is then. */
  lemma LegacyRedirectsOnce(
    path: string, search: string, ids: seq<string>, decode: Decoder, later: seq<string>, other: string)
    requires |ids| <= 10000 && LegacyMailboxRedirect(path, search, ids, decode).Some?
    ensures LegacyMailboxRedirect(LegacyMailboxRedirect(path, search, ids, decode).value.0, other, later, decode).None?
  {
    var segment := MailboxSegmentOf(path).value;
    if ResolveMailboxRef(segment, ids, decode).Legacy? {
      var k := ResolveMailboxRef(segment, ids, decode).index;
      PrintSegment(k);
      IndexReadsBack(k);
      hide MailboxPath, Print, ParseMailboxIndex, ResolveMailboxRef;
      RefReplaced(path, Print(k));
    }
  }
}
