/** URL indexes and old links (`shared/mailbox-url.ts`, `shared/tag-url.ts`), as
    laws about ids and paths. */
module UrlLaws {
  import opened Strings
  import opened Folders
  import opened IdOrder
  import opened MailboxUrl
  import T = TagUrl

  // ---- The order of ids is that of their UTF-16 code units

  function Units(c: char): (us: seq<int>)
    ensures 1 <= |us| <= 2
  {
    var n := c as int;
    if n < 0x10000 then [n] else [0xD800 + (n - 0x10000) / 0x400, 0xDC00 + (n - 0x10000) % 0x400]
  }

  function UnitsOf(s: string): seq<int> {
    if s == "" then [] else Units(s[0]) + UnitsOf(s[1..])
  }

  /** `b` starts with `a`, or is greater where they first differ. */
  predicate IsUpTo(a: seq<int>, b: seq<int>) {
    || (|a| <= |b| && b[..|a|] == a)
    || exists k | 0 <= k < |a| :: k < |b| && a[..k] == b[..k] && a[k] < b[k]
  }

  /** The first unit decides where it differs. */
  lemma UpToHead(a: seq<int>, b: seq<int>)
    requires a != [] && b != [] && a[0] != b[0]
    ensures IsUpTo(a, b) <==> a[0] < b[0]
  {
    assert a[..0] == b[..0];
    assert |a| <= |b| ==> b[..|a|][0] == b[0];
    forall k | 0 < k < |a| && k < |b| ensures a[..k] != b[..k] {
      assert a[..k][0] != b[..k][0];
    }
  }

  /** `b` is greater than `a` where they first differ, at `k`. */
  predicate IsGreaterAt(a: seq<int>, b: seq<int>, k: nat) {
    k < |a| && k < |b| && a[..k] == b[..k] && a[k] < b[k]
  }

  lemma UpToIs(a: seq<int>, b: seq<int>)
    ensures IsUpTo(a, b) <==> (|a| <= |b| && b[..|a|] == a) || exists k: nat :: IsGreaterAt(a, b, k)
  {
    if k: nat :| IsGreaterAt(a, b, k) {
      assert a[..k] == b[..k];
    }
    if k :| 0 <= k < |a| && k < |b| && a[..k] == b[..k] && a[k] < b[k] {
      assert IsGreaterAt(a, b, k);
    }
  }

  lemma GreaterTail(c: int, a: seq<int>, b: seq<int>, k: nat)
    ensures IsGreaterAt([c] + a, [c] + b, k + 1) <==> IsGreaterAt(a, b, k)
    ensures !IsGreaterAt([c] + a, [c] + b, 0)
  {
    var x, y := [c] + a, [c] + b;
    if k < |a| && k < |b| {
      assert x[..k + 1] == [c] + a[..k] && y[..k + 1] == [c] + b[..k];
      assert x[..k + 1][1..] == a[..k] && y[..k + 1][1..] == b[..k];
    }
  }

  lemma PrefixTail(c: int, a: seq<int>, b: seq<int>)
    requires |a| <= |b|
    ensures ([c] + b)[..|a| + 1] == [c] + a <==> b[..|a|] == a
  {
    var y := [c] + b;
    assert y[..|a| + 1] == [c] + b[..|a|];
    assert ([c] + b[..|a|])[1..] == b[..|a|] && ([c] + a)[1..] == a;
  }

  lemma UpToTail(c: int, a: seq<int>, b: seq<int>)
    ensures IsUpTo([c] + a, [c] + b) <==> IsUpTo(a, b)
  {
    hide *;
    UpToIs(a, b);
    UpToIs([c] + a, [c] + b);
    if |a| <= |b| {
      PrefixTail(c, a, b);
    }
    if k: nat :| IsGreaterAt(a, b, k) {
      GreaterTail(c, a, b, k);
    }
    if k: nat :| IsGreaterAt([c] + a, [c] + b, k) {
      GreaterTail(c, a, b, if k == 0 then 0 else k - 1);
    }
    assert |[c] + a| == |a| + 1 && |[c] + b| == |b| + 1;
  }

  lemma UpToCommon(u: seq<int>, a: seq<int>, b: seq<int>)
    ensures IsUpTo(u + a, u + b) <==> IsUpTo(a, b)
  {
    if u == [] {
      assert u + a == a && u + b == b;
    } else {
      assert u + a == [u[0]] + (u[1..] + a) && u + b == [u[0]] + (u[1..] + b);
      UpToTail(u[0], u[1..] + a, u[1..] + b);
      UpToCommon(u[1..], a, b);
    }
  }

  lemma UnitsDiffer(c: char, d: char, a: seq<int>, b: seq<int>)
    requires c != d
    ensures IsUpTo(Units(c) + a, Units(d) + b) <==> CharKey(c) < CharKey(d)
  {
    var x, y := Units(c) + a, Units(d) + b;
    UnitsOrder(c, d);
    hide CharKey, IsUpTo;
    assert x[0] == Units(c)[0] && y[0] == Units(d)[0];
    if x[0] != y[0] {
      UpToHead(x, y);
    } else {
      assert x == [x[0]] + ([Units(c)[1]] + a) && y == [y[0]] + ([Units(d)[1]] + b);
      UpToTail(x[0], [Units(c)[1]] + a, [Units(d)[1]] + b);
      UpToHead([Units(c)[1]] + a, [Units(d)[1]] + b);
    }
  }

  lemma UnitsOrder(c: char, d: char)
    requires c != d
    ensures var u, v := Units(c), Units(d);
      if u[0] != v[0] then u[0] < v[0] <==> CharKey(c) < CharKey(d)
      else |u| == 2 && |v| == 2 && u[1] != v[1] && (u[1] < v[1] <==> CharKey(c) < CharKey(d))
  {
  }

  /** Strings compare as JavaScript compares them. */
  lemma {:induction false} AtMostIff(a: string, b: string)
    ensures AtMost(a, b) <==> IsUpTo(UnitsOf(a), UnitsOf(b))
  {
    hide IsUpTo, Units, CharKey;
    if a == "" {
      NothingUpTo(UnitsOf(b));
    } else if b == "" {
      UpToNothing(UnitsOf(a));
    } else if a[0] == b[0] {
      UpToCommon(Units(a[0]), UnitsOf(a[1..]), UnitsOf(b[1..]));
      AtMostIff(a[1..], b[1..]);
    } else {
      UnitsDiffer(a[0], b[0], UnitsOf(a[1..]), UnitsOf(b[1..]));
    }
  }

  lemma NothingUpTo(b: seq<int>)
    ensures IsUpTo([], b)
  {
    assert b[..0] == [];
  }

  lemma UpToNothing(a: seq<int>)
    ensures a != [] ==> !IsUpTo(a, [])
  {
  }

  /** The ids in URL order: the same ids, by their code units. */
  lemma {:induction false} OrderedByUnits(ids: seq<string>)
    ensures multiset(Ordered(ids)) == multiset(ids)
    ensures forall i, j | 0 <= i < j < |ids| :: IsUpTo(UnitsOf(Ordered(ids)[i]), UnitsOf(Ordered(ids)[j]))
  {
    OrderedOrders(ids);
    hide Ordered, AtMost, IsUpTo;
    forall i, j | 0 <= i < j < |ids| ensures IsUpTo(UnitsOf(Ordered(ids)[i]), UnitsOf(Ordered(ids)[j])) {
      AtMostIff(Ordered(ids)[i], Ordered(ids)[j]);
    }
  }

  // ---- What a segment names

  /** `k` is the first id that reads as `wanted` in lower case. */
  predicate IsFirstOf(ids: seq<string>, wanted: string, k: nat) {
    k < |ids| && Lower(ids[k]) == wanted && forall i | 0 <= i < k :: Lower(ids[i]) != wanted
  }

  /** No id reads so. */
  predicate HasNone(ids: seq<string>, wanted: string) {
    forall i | 0 <= i < |ids| :: Lower(ids[i]) != wanted
  }

  lemma {:induction false} FoundFirst(ids: seq<string>, wanted: string)
    ensures FindFolded(ids, wanted).Some? ==> IsFirstOf(ids, wanted, FindFolded(ids, wanted).value)
  {
    hide Lower;
    if ids != [] && Lower(ids[0]) != wanted {
      FoundFirst(ids[1..], wanted);
    }
  }

  /** The id in an old link, decoded and without white space around it. */
  function Named(segment: string, decode: Decoder): string {
    Lower(Trim(decode(segment)))
  }

  /** The segment is an index. */
  ghost predicate IsIndex(segment: string, k: nat) {
    k < 10000 && segment == Print(k)
  }

  ghost predicate IsNoIndex(segment: string) {
    forall k | 0 <= k < 10000 :: segment != Print(k)
  }

  lemma IndexIff(segment: string)
    ensures ParseMailboxIndex(segment).None? <==> IsNoIndex(segment)
    ensures forall k: nat :: IsIndex(segment, k) <==> ParseMailboxIndex(segment) == Some(k)
  {
    hide ParseMailboxIndex, Print;
    forall k: nat ensures IsIndex(segment, k) <==> ParseMailboxIndex(segment) == Some(k) {
      IndexExactly(segment, k);
    }
    if ParseMailboxIndex(segment).Some? {
      IndexExactly(segment, ParseMailboxIndex(segment).value);
    }
    if k :| 0 <= k < 10000 && segment == Print(k) {
      IndexExactly(segment, k);
    }
  }

  /** A segment names a mailbox by its index, or as an old link does: by its
      address in any case; anything else is unknown. */
  lemma {:induction false} ReferenceResolved(segment: string, ids: seq<string>, decode: Decoder)
    ensures var ordered, r := Ordered(ids), ResolveMailboxRef(segment, ids, decode);
      && (forall k: nat | IsIndex(segment, k) :: r == if k < |ids| then Mailbox(ordered[k], k) else Unknown)
      && (IsNoIndex(segment) ==>
            && (forall k: nat | segment != "" && IsFirstOf(ordered, Named(segment, decode), k) :: r == Legacy(ordered[k], k))
            && (segment == "" || HasNone(ordered, Named(segment, decode)) ==> r == Unknown))
  {
    IndexIff(segment);
    var ordered, wanted := Ordered(ids), Named(segment, decode);
    hide ParseMailboxIndex, Print, Ordered, IsIndex, IsNoIndex, Lower, Trim, FindFolded, IsFirstOf, HasNone;
    forall k: nat | IsFirstOf(ordered, wanted, k) ensures FindFolded(ordered, wanted) == Some(k) {
      OneFirst(ordered, wanted, k);
    }
    if HasNone(ordered, wanted) {
      NoneFirst(ordered, wanted);
    }
  }

  lemma {:induction false} NoneFirst(ids: seq<string>, wanted: string)
    requires HasNone(ids, wanted)
    ensures FindFolded(ids, wanted).None?
  {
    FoundFirst(ids, wanted);
    hide FindFolded, Lower;
  }

  lemma {:induction false} OneFirst(ids: seq<string>, wanted: string, k: nat)
    requires IsFirstOf(ids, wanted, k)
    ensures FindFolded(ids, wanted) == Some(k)
  {
    FoundFirst(ids, wanted);
    hide FindFolded, Lower;
  }

  // ---- Old mailbox links

  /** The rest of a path: nothing, or a slash and a line. */
  predicate IsRest(rest: string) {
    rest == "" || (rest[0] == '/' && forall i | 0 <= i < |rest| :: rest[i] !in {'\n', '\r', '\U{2028}', '\U{2029}'})
  }

  predicate IsSegment(s: string) {
    s != "" && '/' !in s
  }

  lemma RestIs(rest: string)
    ensures IsRest(rest) <==> (rest == "" || rest[0] == '/') && !HasLineEnd(rest)
  {
  }

  lemma SegmentChars(s: string)
    ensures IsSegment(s) <==> s != "" && AllChars(s, IsNotSlash)
  {
  }

  lemma PathCut(segment: string, rest: string)
    requires IsSegment(segment) && IsRest(rest)
    ensures MailboxPath("/mailbox/" + segment + rest) == Some(|segment|)
    ensures MailboxSegmentOf("/mailbox/" + segment + rest) == Some(segment)
    ensures forall ref :: WithMailboxRef("/mailbox/" + segment + rest, ref) == "/mailbox/" + ref + rest
  {
    RestIs(rest);
    SegmentChars(segment);
    hide HasLineEnd;
    var q := "/mailbox/" + segment + rest;
    assert q[..9] == "/mailbox/" && q[9..] == segment + rest;
    RunIs(segment + rest, IsNotSlash, |segment|);
    hide Run;
    assert q[9 + |segment|..] == rest;
    assert q[9..9 + |segment|] == segment;
  }

  lemma OtherPath(path: string)
    ensures MailboxSegmentOf(path).Some? ==>
      var segment := MailboxSegmentOf(path).value;
      exists rest: string :: IsSegment(segment) && IsRest(rest) && path == "/mailbox/" + segment + rest
  {
    if MailboxPath(path).Some? {
      PathRest(path);
      var n := MailboxPath(path).value;
      var segment, rest := path[9..9 + n], path[9 + n..];
      assert segment == path[9..][..n];
      assert AllChars(segment, IsNotSlash);
      hide HasLineEnd, Run;
      assert path == path[..9] + segment + rest;
      RestIs(rest);
      SegmentChars(segment);
    }
  }

  /** Where an old mailbox link leads: to the same view, with its query, at the
      mailbox's index, or to the start page; nowhere for any other path. */
  lemma {:induction false} OldMailboxLink(segment: string, rest: string, search: string, ids: seq<string>, decode: Decoder)
    requires IsSegment(segment) && IsRest(rest)
    ensures var r := LegacyMailboxRedirect("/mailbox/" + segment + rest, search, ids, decode);
      && (!IsNoIndex(segment) ==> r.None?)
      && (IsNoIndex(segment) ==>
            && (forall k: nat | IsFirstOf(Ordered(ids), Named(segment, decode), k) ::
                  r == Some(("/mailbox/" + Print(k) + rest, search)))
            && (HasNone(Ordered(ids), Named(segment, decode)) ==> r == Some(("/", ""))))
  {
    PathCut(segment, rest);
    IndexIff(segment);
    ReferenceResolved(segment, ids, decode);
    hide ParseMailboxIndex, Print, Ordered, IsNoIndex, IsIndex, Lower, Trim, ResolveMailboxRef, WithMailboxRef, MailboxSegmentOf;
  }

  lemma OtherMailboxPath(path: string, search: string, ids: seq<string>, decode: Decoder)
    requires forall segment: string, rest: string ::
      IsSegment(segment) && IsRest(rest) ==> path != "/mailbox/" + segment + rest
    ensures LegacyMailboxRedirect(path, search, ids, decode).None?
  {
    OtherPath(path);
    hide MailboxSegmentOf, IsSegment, IsRest, ParseMailboxIndex, ResolveMailboxRef, WithMailboxRef, Print;
  }

  // ---- Old tag links

  const BUILT_IN: set<string> := {
    "inbox", "screener", "promotions", "updates", "sent", "draft", "archive", "spam", "screened_out", "trash"
  }

  lemma BuiltIn(id: string)
    ensures T.IsSystemFolderId(id) <==> id in BUILT_IN
  {
  }

  /** The tags in URL order: the folders that are not built in, by their code units. */
  lemma TagsByUnits(folderIds: seq<string>)
    ensures var tags := T.OrderTagIds(folderIds);
      && (forall id: string :: multiset(tags)[id] == if id in BUILT_IN then 0 else multiset(folderIds)[id])
      && forall i, j | 0 <= i < j < |tags| :: IsUpTo(UnitsOf(tags[i]), UnitsOf(tags[j]))
  {
    OrderedByUnits(T.TagsOf(folderIds));
    hide Ordered, IsUpTo, UnitsOf, T.TagsOf, BUILT_IN, T.IsSystemFolderId;
    forall id: string ensures multiset(T.OrderTagIds(folderIds))[id] == if id in BUILT_IN then 0 else multiset(folderIds)[id] {
      T.TagsCounted(folderIds, id);
      BuiltIn(id);
    }
  }

  lemma ListPathCut(mailbox: string, route: T.Route, name: string, rest: string)
    requires IsSegment(mailbox) && IsSegment(name) && IsRest(rest)
    ensures var head := "/mailbox/" + mailbox;
      var path, from := head + (T.RouteText(route) + (name + rest)), |head| + |T.RouteText(route)|;
      && T.ListPath(path) == Some(T.ListMatch(|head|, route, from, from + |name|))
      && path[..|head|] == head && path[from..from + |name|] == name && path[from + |name|..] == rest
  {
    hide *;
    var head, word := "/mailbox/" + mailbox, T.RouteText(route);
    RestIs(rest);
    SegmentChars(mailbox);
    SegmentChars(name);
    HeadIs(mailbox);
    T.RouteTexts(route);
    T.ListSlices(head, word, name, rest);
    T.PathNamed(head, route, word + (name + rest));
    T.NameIs(head + (word + (name + rest)), |head|, route, name, rest);
    Front(head, word + (name + rest));
  }

  lemma Front(a: string, b: string)
    ensures (a + b)[..|a|] == a && |a| <= |a + b|
  {
  }

  lemma HeadIs(mailbox: string)
    ensures var head := "/mailbox/" + mailbox;
      StartsWith(head, PREFIX) && |head| == |PREFIX| + |mailbox| && head[|PREFIX|..] == mailbox && |PREFIX| == 9
  {
    assert ("/mailbox/" + mailbox)[..9] == "/mailbox/";
  }

  lemma TagFound(segment: string, folderIds: seq<string>, decode: Decoder, k: nat)
    requires IsFirstOf(T.OrderTagIds(folderIds), Named(segment, decode), k)
    ensures T.ResolveLegacyTag(segment, folderIds, decode) == Some(k)
  {
    OneFirst(T.OrderTagIds(folderIds), Named(segment, decode), k);
    hide FindFolded, Lower, Trim, T.OrderTagIds;
  }

  lemma NoTagFound(segment: string, folderIds: seq<string>, decode: Decoder)
    requires HasNone(T.OrderTagIds(folderIds), Named(segment, decode))
    ensures T.ResolveLegacyTag(segment, folderIds, decode).None?
  {
    NoneFirst(T.OrderTagIds(folderIds), Named(segment, decode));
    hide FindFolded, Lower, Trim, T.OrderTagIds;
  }

  /** A list's path in a mailbox. */
  function ListUrl(mailbox: string, route: T.Route, name: string, rest: string): string {
    "/mailbox/" + mailbox + ((if route.Emails? then "/emails/" else "/tags/") + (name + rest))
  }

  lemma ListUrlIs(mailbox: string, route: T.Route, name: string, rest: string)
    ensures ListUrl(mailbox, route, name, rest) == "/mailbox/" + mailbox + (T.RouteText(route) + (name + rest))
  {
  }

  lemma ReplacedAt(path: string, list: T.List, keepRest: bool)
    requires T.ListPath(path).Some?
    ensures var m := T.ListPath(path).value;
      T.WithListSegment(path, list, keepRest)
        == path[..m.head] + (T.RouteText(list.route) + (list.segment + (if keepRest then path[m.to..] else "")))
  {
    hide T.ListPath, T.RouteText;
  }

  lemma SegmentAt(path: string)
    requires T.ListPath(path).Some?
    ensures var m := T.ListPath(path).value;
      T.LegacyTagSegmentOf(path) ==
        if m.route.Tags? || T.IsSystemFolderId(path[m.from..m.to]) then None else Some(path[m.from..m.to])
  {
    hide T.ListPath, T.IsSystemFolderId;
  }

  lemma ListReplaced(mailbox: string, name: string, rest: string, list: T.List, keepRest: bool)
    requires IsSegment(mailbox) && IsSegment(name) && IsRest(rest)
    ensures T.WithListSegment(ListUrl(mailbox, T.Emails, name, rest), list, keepRest)
         == ListUrl(mailbox, list.route, list.segment, if keepRest then rest else "")
  {
    hide *;
    var path := ListUrl(mailbox, T.Emails, name, rest);
    ListUrlIs(mailbox, T.Emails, name, rest);
    ListUrlIs(mailbox, list.route, list.segment, if keepRest then rest else "");
    ListPathCut(mailbox, T.Emails, name, rest);
    ReplacedAt(path, list, keepRest);
  }

  lemma ListUrlRead(mailbox: string, route: T.Route, name: string, rest: string)
    requires IsSegment(mailbox) && IsSegment(name) && IsRest(rest)
    ensures T.LegacyTagSegmentOf(ListUrl(mailbox, route, name, rest)) ==
      if route.Tags? || name in BUILT_IN then None else Some(name)
  {
    hide *;
    ListUrlIs(mailbox, route, name, rest);
    ListPathCut(mailbox, route, name, rest);
    BuiltIn(name);
    SegmentAt(ListUrl(mailbox, route, name, rest));
  }

  lemma TagRedirectIs(path: string, folderIds: seq<string>, decode: Decoder)
    ensures T.LegacyTagRedirect(path, folderIds, decode) ==
      match T.LegacyTagSegmentOf(path)
      case None => None
      case Some(name) =>
        match T.ResolveLegacyTag(name, folderIds, decode)
        case Some(k) => Some(T.WithListSegment(path, T.List(T.Tags, Print(k)), true))
        case None => Some(T.WithListSegment(path, T.List(T.Emails, "inbox"), false))
  {
    hide T.LegacyTagSegmentOf, T.ResolveLegacyTag, T.WithListSegment, Print;
  }

  /** Where an old tag link leads: to the same view at the tag's index, or to the
      mailbox's Inbox; nowhere from a built-in folder, or from a tag's index. */
  lemma OldTagLink(mailbox: string, name: string, rest: string, folderIds: seq<string>, decode: Decoder)
    requires IsSegment(mailbox) && IsSegment(name) && IsRest(rest)
    ensures var r := T.LegacyTagRedirect(ListUrl(mailbox, T.Emails, name, rest), folderIds, decode);
      && (name in BUILT_IN ==> r.None?)
      && (name !in BUILT_IN ==>
            && (forall k: nat | IsFirstOf(T.OrderTagIds(folderIds), Named(name, decode), k) ::
                  r == Some(ListUrl(mailbox, T.Tags, Print(k), rest)))
            && (HasNone(T.OrderTagIds(folderIds), Named(name, decode)) ==> r == Some(ListUrl(mailbox, T.Emails, "inbox", ""))))
    ensures T.LegacyTagRedirect(ListUrl(mailbox, T.Tags, name, rest), folderIds, decode).None?
  {
    hide *;
    ListUrlRead(mailbox, T.Emails, name, rest);
    ListUrlRead(mailbox, T.Tags, name, rest);
    TagRedirectIs(ListUrl(mailbox, T.Emails, name, rest), folderIds, decode);
    TagRedirectIs(ListUrl(mailbox, T.Tags, name, rest), folderIds, decode);
    forall k: nat | IsFirstOf(T.OrderTagIds(folderIds), Named(name, decode), k)
      ensures T.ResolveLegacyTag(name, folderIds, decode) == Some(k)
    {
      TagFound(name, folderIds, decode, k);
    }
    forall k: nat {
      ListReplaced(mailbox, name, rest, T.List(T.Tags, Print(k)), true);
    }
    ListReplaced(mailbox, name, rest, T.List(T.Emails, "inbox"), false);
    if HasNone(T.OrderTagIds(folderIds), Named(name, decode)) {
      NoTagFound(name, folderIds, decode);
    }
  }

  // ---- What the list route does

  const INBOX_VIEW := T.RedirectTo(T.List(T.Emails, "inbox"), false, None)

  /** The pinned tag at index `k`: shown, or moved to. */
  ghost function PinnedView(segment: string, k: nat, pinned: string): T.FolderOutcome {
    if IsIndex(segment, k) then T.ShowFolder(pinned) else T.RedirectTo(T.List(T.Tags, Print(k)), true, Some(pinned))
  }

  /** What a list URL comes to: built-in folders are shown even before the folders
      are known; an old link moves to the tag's index and keeps what follows; the
      pinned tag stays open at its index; anything unknown leads to the Inbox. */
  lemma ListReconciled(list: T.List, folderIds: Option<seq<string>>, pinned: string, decode: Decoder)
    ensures var o := T.ReconcileListFolder(list, folderIds, pinned, decode);
      && (list.route.Emails? && list.segment in BUILT_IN ==> o == T.ShowFolder(list.segment))
      && (!(list.route.Emails? && list.segment in BUILT_IN) && folderIds.None? ==> o == T.Wait)
    ensures folderIds.Some? ==>
      var tags, o := T.OrderTagIds(folderIds.value), T.ReconcileListFolder(list, folderIds, pinned, decode);
      && (list.route.Emails? && list.segment !in BUILT_IN ==>
            && (forall k: nat | IsFirstOf(tags, Named(list.segment, decode), k) ::
                  o == T.RedirectTo(T.List(T.Tags, Print(k)), true, Some(tags[k])))
            && (HasNone(tags, Named(list.segment, decode)) ==> o == INBOX_VIEW))
      && (list.route.Tags? && pinned != "" ==>
            && (pinned !in tags ==> o == INBOX_VIEW)
            && (pinned in tags ==> exists k: nat :: k < |tags| && tags[k] == pinned && o == PinnedView(list.segment, k, pinned)))
      && (list.route.Tags? && pinned == "" ==>
            && (forall k: nat | IsIndex(list.segment, k) :: o == if k < |tags| then T.ShowFolder(tags[k]) else INBOX_VIEW)
            && (IsNoIndex(list.segment) ==> o == INBOX_VIEW))
  {
    BuiltIn(list.segment);
    IndexIff(list.segment);
    hide BUILT_IN, T.IsSystemFolderId, T.OrderTagIds, ParseMailboxIndex, Print, IsIndex, IsNoIndex, IsFirstOf, HasNone,
      T.ResolveLegacyTag, Named, Position;
    if folderIds.Some? && list.route.Emails? {
      OrderedTagNamed(list.segment, folderIds.value, decode);
    }
  }

  /** Tags in order are found as the folders' tags are. */
  lemma OrderedTagNamed(segment: string, folderIds: seq<string>, decode: Decoder)
    ensures var tags := T.OrderTagIds(folderIds);
      && T.OrderTagIds(tags) == tags
      && (forall k: nat | IsFirstOf(tags, Named(segment, decode), k) :: T.ResolveLegacyTag(segment, tags, decode) == Some(k))
      && (HasNone(tags, Named(segment, decode)) ==> T.ResolveLegacyTag(segment, tags, decode).None?)
  {
    T.OrderTagsAgain(folderIds);
    hide T.OrderTagIds, IsFirstOf, HasNone, Named, T.ResolveLegacyTag;
    var tags := T.OrderTagIds(folderIds);
    forall k: nat | IsFirstOf(tags, Named(segment, decode), k) ensures T.ResolveLegacyTag(segment, tags, decode) == Some(k) {
      TagFound(segment, tags, decode, k);
    }
    if HasNone(tags, Named(segment, decode)) {
      NoTagFound(segment, tags, decode);
    }
  }
}
