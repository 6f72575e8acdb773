/** Tags named by their index in the URL (`shared/tag-url.ts`). */
module TagUrl {
  import opened Strings
  import opened Folders
  import opened IdOrder
  import opened MailboxUrl

  predicate IsSystemFolderId(id: string) {
    id in SYSTEM_FOLDER_IDS
  }

  function TagsOf(folderIds: seq<string>): seq<string> {
    if folderIds == [] then []
    else (if IsSystemFolderId(folderIds[0]) then [] else [folderIds[0]]) + TagsOf(folderIds[1..])
  }

  function OrderTagIds(folderIds: seq<string>): seq<string> {
    Ordered(TagsOf(folderIds))
  }

  datatype Route = Emails | Tags

  /** `resolveLegacyTagSegment`: the index of the tag named by its id. */
  function ResolveLegacyTag(segment: string, folderIds: seq<string>, decode: Decoder): (r: Option<nat>)
    ensures r.Some? ==> r.value < |OrderTagIds(folderIds)|
  {
    FindFolded(OrderTagIds(folderIds), Lower(Trim(decode(segment))))
  }

  /** The list part of a URL. */
  datatype List = List(route: Route, segment: string)

  datatype FolderOutcome =
    | Wait
    | ShowFolder(folderId: string)
    | RedirectTo(list: List, keepRest: bool, meanwhile: Option<string>)

  const TO_INBOX := RedirectTo(List(Emails, INBOX), false, None)

  /** `reconcileListFolder`; no pinned tag is empty. */
  function ReconcileListFolder(list: List, folderIds: Option<seq<string>>, pinned: string, decode: Decoder): FolderOutcome {
    if list.route.Emails? && IsSystemFolderId(list.segment) then ShowFolder(list.segment)
    else if folderIds.None? then Wait
    else
      var ordered := OrderTagIds(folderIds.value);
      if list.route.Emails? then
        match ResolveLegacyTag(list.segment, ordered, decode)
        case None => TO_INBOX
        case Some(index) =>
          RedirectTo(List(Tags, Print(index)), true, Some(OrderTagIds(ordered)[index]))
      else if pinned != "" then
        match Position(ordered, pinned)
        case None => TO_INBOX
        case Some(k) =>
          if ParseMailboxIndex(list.segment) != Some(k) then RedirectTo(List(Tags, Print(k)), true, Some(pinned))
          else ShowFolder(pinned)
      else
        var index := ParseMailboxIndex(list.segment);
        if index.None? || index.value >= |ordered| then TO_INBOX else ShowFolder(ordered[index.value])
  }

  /** Where the view is after up to `hops` redirects. */
  function Follow(list: List, folderIds: seq<string>, pinned: string, decode: Decoder, hops: nat): FolderOutcome
    decreases hops
  {
    var o := ReconcileListFolder(list, Some(folderIds), pinned, decode);
    if o.RedirectTo? && hops > 0 then Follow(o.list, folderIds, pinned, decode, hops - 1) else o
  }

  lemma InboxShown(folderIds: seq<string>, pinned: string, decode: Decoder)
    ensures ReconcileListFolder(TO_INBOX.list, Some(folderIds), pinned, decode) == ShowFolder(INBOX)
  {
  }

  lemma {:induction false} TagsFewer(folderIds: seq<string>)
    ensures |TagsOf(folderIds)| <= |folderIds|
    ensures forall i | 0 <= i < |TagsOf(folderIds)| :: !IsSystemFolderId(TagsOf(folderIds)[i])
    ensures forall id :: id in TagsOf(folderIds) <==> id in folderIds && !IsSystemFolderId(id)
  {
    hide IsSystemFolderId;
    if folderIds != [] {
      TagsFewer(folderIds[1..]);
      assert folderIds == [folderIds[0]] + folderIds[1..];
    }
  }

  lemma {:induction false} NothingToDrop(ids: seq<string>)
    requires forall i | 0 <= i < |ids| :: !IsSystemFolderId(ids[i])
    ensures TagsOf(ids) == ids
  {
    hide IsSystemFolderId;
    if ids != [] {
      NothingToDrop(ids[1..]);
      assert ids == [ids[0]] + ids[1..];
    }
  }

  /** Ordering the tags again changes nothing. */
  lemma OrderTagsAgain(folderIds: seq<string>)
    ensures OrderTagIds(OrderTagIds(folderIds)) == OrderTagIds(folderIds)
  {
    TagsFewer(folderIds);
    var tags := TagsOf(folderIds);
    forall i | 0 <= i < |Ordered(tags)| ensures !IsSystemFolderId(Ordered(tags)[i]) {
      OrderedKeeps(tags, Ordered(tags)[i]);
    }
    hide IsSystemFolderId, Ordered, TagsOf;
    NothingToDrop(Ordered(tags));
    OrderedAgain(tags);
  }

  /** The outcome for `tags/k`. */
  lemma {:induction false} TagAt(k: nat, folderIds: seq<string>, pinned: string, decode: Decoder)
    requires k < |OrderTagIds(folderIds)| && k < 10000
    requires pinned == "" || Position(OrderTagIds(folderIds), pinned) == Some(k)
    ensures ReconcileListFolder(List(Tags, Print(k)), Some(folderIds), pinned, decode)
         == ShowFolder(OrderTagIds(folderIds)[k])
  {
    IndexReadsBack(k);
    hide OrderTagIds, ParseMailboxIndex, Print, IsSystemFolderId;
  }

  /** A tag's URL is settled after one hop, and shows what was promised: the
      pinned tag at its own index, the tag of that index, or the Inbox. */
  lemma TagSettles(segment: string, folderIds: seq<string>, pinned: string, decode: Decoder)
    requires pinned != "" ==> |OrderTagIds(folderIds)| <= 10000
    ensures var o := ReconcileListFolder(List(Tags, segment), Some(folderIds), pinned, decode);
      && !o.Wait?
      && (o.RedirectTo? ==>
            ReconcileListFolder(o.list, Some(folderIds), pinned, decode)
            == ShowFolder(if o.meanwhile.Some? then o.meanwhile.value else INBOX))
  {
    InboxShown(folderIds, pinned, decode);
    var o := ReconcileListFolder(List(Tags, segment), Some(folderIds), pinned, decode);
    hide OrderTagIds, ParseMailboxIndex, Print, IsSystemFolderId;
    if pinned != "" && o.RedirectTo? && o != TO_INBOX {
      TagAt(Position(OrderTagIds(folderIds), pinned).value, folderIds, pinned, decode);
    }
  }

  /** An old link to a tag leads to the tag's index, or to the Inbox. */
  lemma LegacySettles(segment: string, folderIds: seq<string>, decode: Decoder)
    requires |OrderTagIds(folderIds)| <= 10000
    ensures var o := ReconcileListFolder(List(Emails, segment), Some(folderIds), "", decode);
      && !o.Wait?
      && (o.RedirectTo? ==>
            ReconcileListFolder(o.list, Some(folderIds), "", decode)
            == ShowFolder(if o.meanwhile.Some? then o.meanwhile.value else INBOX))
  {
    InboxShown(folderIds, "", decode);
    OrderTagsAgain(folderIds);
    var ordered := OrderTagIds(folderIds);
    hide OrderTagIds, ParseMailboxIndex, Print, IsSystemFolderId, Trim, Lower;
    match ResolveLegacyTag(segment, ordered, decode) {
      case None =>
      case Some(k) => TagAt(k, folderIds, "", decode);
    }
  }

  /** Whatever the URL, the folders and the pin, two redirects settle the view. */
  lemma {:induction false} SettlesInTwo(list: List, folderIds: seq<string>, pinned: string, decode: Decoder)
    requires pinned != "" ==> |OrderTagIds(folderIds)| <= 10000
    ensures Follow(list, folderIds, pinned, decode, 2).ShowFolder?
  {
    var o := ReconcileListFolder(list, Some(folderIds), pinned, decode);
    InboxShown(folderIds, pinned, decode);
    if list.route.Tags? {
      TagSettles(list.segment, folderIds, pinned, decode);
    } else {
      EmailsLeadsOn(list, folderIds, pinned, decode);
      if o.RedirectTo? && o != TO_INBOX {
        TagSettles(o.list.segment, folderIds, pinned, decode);
      }
    }
    hide OrderTagIds, ReconcileListFolder;
    assert !o.RedirectTo? || Follow(list, folderIds, pinned, decode, 2) == Follow(o.list, folderIds, pinned, decode, 1);
  }

  lemma EmailsLeadsOn(list: List, folderIds: seq<string>, pinned: string, decode: Decoder)
    requires list.route.Emails?
    ensures var o := ReconcileListFolder(list, Some(folderIds), pinned, decode);
      o.ShowFolder? || o == TO_INBOX || (o.RedirectTo? && o.list.route.Tags?)
  {
  }

  /** A removed tag's view goes to the Inbox: the URL never quietly names another
      tag, however many there are. */
  lemma RemovedTagLeaves(segment: string, folderIds: seq<string>, pinned: string, decode: Decoder)
    requires pinned != "" && pinned !in folderIds
    ensures ReconcileListFolder(List(Tags, segment), Some(folderIds), pinned, decode) == TO_INBOX
  {
    TagsFewer(folderIds);
    OrderedKeeps(TagsOf(folderIds), pinned);
  }

  /** What `TagsOf` keeps, by id. */
  lemma {:induction false} TagsCounted(folderIds: seq<string>, id: string)
    ensures multiset(TagsOf(folderIds))[id] == if IsSystemFolderId(id) then 0 else multiset(folderIds)[id]
  {
    hide IsSystemFolderId;
    if folderIds != [] {
      TagsCounted(folderIds[1..], id);
      assert folderIds == [folderIds[0]] + folderIds[1..];
    }
  }

  /** Tag indexes depend on which folders there are, not on how they are listed. */
  lemma TagOrderDoesNotMatter(a: seq<string>, b: seq<string>)
    requires multiset(a) == multiset(b)
    ensures OrderTagIds(a) == OrderTagIds(b)
  {
    forall id: string ensures multiset(TagsOf(a))[id] == multiset(TagsOf(b))[id] {
      TagsCounted(a, id);
      TagsCounted(b, id);
    }
    hide TagsOf;
    assert multiset(TagsOf(a)) == multiset(TagsOf(b));
    OrderedAgree(TagsOf(a), TagsOf(b));
  }

  // ---- The folder list changes while a tag is open

  /** The open tag after a run of folder lists, each of which has it. */
  function AllChanged(segment: string, tag: string, lists: seq<seq<string>>, decode: Decoder): Option<string> {
    if lists == [] then Some(segment)
    else
      match AllChanged(segment, tag, lists[..|lists| - 1], decode)
      case None => None
      case Some(s) =>
        match ReconcileListFolder(List(Tags, s), Some(lists[|lists| - 1]), tag, decode)
        case ShowFolder(id) => if id == tag then Some(s) else None
        case RedirectTo(list, _, id) => if id == Some(tag) && list.route.Tags? then Some(list.segment) else None
        case Wait => None
  }

  /** Over any run of folder edits the open tag stays open, at its index, until it
      is removed. */
  lemma {:induction false} TagStaysShown(segment: string, tag: string, lists: seq<seq<string>>, decode: Decoder)
    requires tag != "" && forall i | 0 <= i < |lists| :: tag in TagsOf(lists[i]) && |OrderTagIds(lists[i])| <= 10000
    ensures var s := AllChanged(segment, tag, lists, decode);
      && s.Some?
      && (lists != [] ==> ParseMailboxIndex(s.value) == Position(OrderTagIds(lists[|lists| - 1]), tag))
  {
    if lists != [] {
      var before := lists[..|lists| - 1];
      TagStaysShown(segment, tag, before, decode);
      hide OrderTagIds, ParseMailboxIndex, TagsOf, ReconcileListFolder;
      TagKept(AllChanged(segment, tag, before, decode).value, tag, lists[|lists| - 1], decode);
    }
  }

  /** One change of the folders. */
  lemma {:induction false} TagKept(segment: string, tag: string, folderIds: seq<string>, decode: Decoder)
    requires tag != "" && tag in TagsOf(folderIds) && |OrderTagIds(folderIds)| <= 10000
    ensures var o := ReconcileListFolder(List(Tags, segment), Some(folderIds), tag, decode);
      var k := Position(OrderTagIds(folderIds), tag);
      || (o == ShowFolder(tag) && ParseMailboxIndex(segment) == k)
      || (o.RedirectTo? && o.meanwhile == Some(tag) && o.list.route.Tags? && ParseMailboxIndex(o.list.segment) == k)
  {
    OrderedKeeps(TagsOf(folderIds), tag);
    var k := Position(OrderTagIds(folderIds), tag).value;
    IndexReadsBack(k);
    hide OrderTagIds, ParseMailboxIndex, Print, TagsOf;
  }

  // ---- Old links

  /** `/^(\/mailbox\/[^\/]+)\/(emails|tags)\/([^\/]+)(\/.*)?$/`: where the first part
      ends, the form, and where the name starts and ends. */
  datatype ListMatch = ListMatch(head: nat, route: Route, from: nat, to: nat)

  function RouteText(route: Route): string {
    if route.Emails? then "/emails/" else "/tags/"
  }

  function ListPath(path: string): (r: Option<ListMatch>)
    ensures r.Some? ==> r.value.head <= r.value.from < r.value.to <= |path|
  {
    if !StartsWith(path, PREFIX) then None else
    var head := |PREFIX| + Run(path[|PREFIX|..], IsNotSlash);
    var tail := path[head..];
    if head == |PREFIX| then None
    else if StartsWith(tail, RouteText(Emails)) then NameAt(path, head, Emails)
    else if StartsWith(tail, RouteText(Tags)) then NameAt(path, head, Tags)
    else None
  }

  function NameAt(path: string, head: nat, route: Route): (r: Option<ListMatch>)
    requires head + |RouteText(route)| <= |path|
    ensures r.Some? ==> r.value.head <= r.value.from < r.value.to <= |path|
  {
    var from := head + |RouteText(route)|;
    var n := Run(path[from..], IsNotSlash);
    var rest := path[from + n..];
    if n == 0 || HasLineEnd(rest) then None
    else Some(ListMatch(head, route, from, from + n))
  }

  function LegacyTagSegmentOf(path: string): Option<string> {
    match ListPath(path)
    case None => None
    case Some(m) =>
      var name := path[m.from..m.to];
      if m.route.Tags? || IsSystemFolderId(name) then None else Some(name)
  }

  function WithListSegment(path: string, list: List, keepRest: bool): string {
    match ListPath(path)
    case None => path
    case Some(m) => path[..m.head] + (RouteText(list.route) + (list.segment + (if keepRest then path[m.to..] else "")))
  }

  function LegacyTagRedirect(path: string, folderIds: seq<string>, decode: Decoder): Option<string> {
    match LegacyTagSegmentOf(path)
    case None => None
    case Some(segment) =>
      match ResolveLegacyTag(segment, folderIds, decode)
      case Some(index) => Some(WithListSegment(path, List(Tags, Print(index)), true))
      case None => Some(WithListSegment(path, TO_INBOX.list, false))
  }

  lemma PathHead(head: string, tail: string)
    requires StartsWith(head, PREFIX) && |head| > |PREFIX| && AllChars(head[|PREFIX|..], IsNotSlash)
    requires tail != "" && tail[0] == '/'
    ensures StartsWith(head + tail, PREFIX)
    ensures Run((head + tail)[|PREFIX|..], IsNotSlash) == |head| - |PREFIX|
  {
    hide PREFIX;
    var path := head + tail;
    assert path[..|PREFIX|] == head[..|PREFIX|];
    assert path[|PREFIX|..] == head[|PREFIX|..] + tail;
    RunIs(head[|PREFIX|..] + tail, IsNotSlash, |head| - |PREFIX|);
  }

  lemma PathNamed(head: string, route: Route, tail: string)
    requires StartsWith(head, PREFIX) && |head| > |PREFIX| && AllChars(head[|PREFIX|..], IsNotSlash)
    requires StartsWith(tail, RouteText(route)) && tail != "" && tail[0] == '/' && (head + tail)[|head|..] == tail
    ensures ListPath(head + tail) == NameAt(head + tail, |head|, route)
  {
    hide *;
    PathHead(head, tail);
    OtherRoute(tail, route);
    ListPathNamed(head + tail, |head|, route);
  }

  /** The head of a list path and what follows its name, with a name between. */
  lemma ListPathIs(head: string, list: List, rest: string)
    requires StartsWith(head, PREFIX) && |head| > |PREFIX| && AllChars(head[|PREFIX|..], IsNotSlash)
    requires list.segment != "" && AllChars(list.segment, IsNotSlash)
    requires rest == "" || rest[0] == '/'
    requires !HasLineEnd(rest)
    ensures var path := head + (RouteText(list.route) + (list.segment + rest));
      && ListPath(path).Some? && ListPath(path).value.route == list.route
      && path[ListPath(path).value.from..ListPath(path).value.to] == list.segment
  {
    hide *;
    var word, name := RouteText(list.route), list.segment;
    var tail := word + (name + rest);
    RouteTexts(list.route);
    ListSlices(head, word, name, rest);
    PathNamed(head, list.route, tail);
    NameIs(head + tail, |head|, list.route, name, rest);
  }

  lemma ListSlices(head: string, word: string, name: string, rest: string)
    requires |PREFIX| <= |head|
    ensures var tail := word + (name + rest);
      var path, from := head + tail, |head| + |word|;
      && path[|PREFIX|..] == head[|PREFIX|..] + tail && path[|head|..] == tail
      && path[from..] == name + rest && path[from..from + |name|] == name && path[from + |name|..] == rest
      && StartsWith(tail, word) && (word != "" ==> tail != "" && tail[0] == word[0])
  {
  }

  lemma ListPathNamed(path: string, head: nat, route: Route)
    requires StartsWith(path, PREFIX) && |PREFIX| < head <= |path|
    requires head == |PREFIX| + Run(path[|PREFIX|..], IsNotSlash)
    requires StartsWith(path[head..], RouteText(route))
    requires route.Tags? ==> !StartsWith(path[head..], RouteText(Emails))
    ensures ListPath(path) == NameAt(path, head, route)
  {
    hide NameAt, Run, StartsWith, RouteText;
  }

  lemma NameIs(path: string, head: nat, route: Route, name: string, rest: string)
    requires head + |RouteText(route)| <= |path| && path[head + |RouteText(route)|..] == name + rest
    requires name != "" && AllChars(name, IsNotSlash) && (rest == "" || rest[0] == '/')
    requires !HasLineEnd(rest)
    ensures var from := head + |RouteText(route)|;
      NameAt(path, head, route) == Some(ListMatch(head, route, from, from + |name|))
  {
    var from := head + |RouteText(route)|;
    hide HasLineEnd, RouteText;
    RunIs(name + rest, IsNotSlash, |name|);
    hide Run, AllChars;
    assert path[from + |name|..] == (name + rest)[|name|..] == rest;
  }

  lemma RouteTexts(route: Route)
    ensures RouteText(route) != "" && RouteText(route)[0] == '/' && |RouteText(Emails)| == 8 && |RouteText(Tags)| == 6
  {
  }

  lemma OtherRoute(tail: string, route: Route)
    requires StartsWith(tail, RouteText(route))
    ensures route.Tags? ==> !StartsWith(tail, RouteText(Emails))
  {
    if route.Tags? {
      assert tail[..6][1] == 't' && tail[1] == 't';
      assert |tail| >= 8 ==> tail[..8][1] == 't';
      assert RouteText(Emails)[1] == 'e';
    }
  }

  lemma NameParts(path: string, head: nat, route: Route)
    requires head + |RouteText(route)| <= |path| && NameAt(path, head, route).Some?
    ensures var to := NameAt(path, head, route).value.to;
      (path[to..] == "" || path[to..][0] == '/') && !HasLineEnd(path[to..])
  {
    hide HasLineEnd, RouteText;
    var from, to := NameAt(path, head, route).value.from, NameAt(path, head, route).value.to;
    assert path[to..] == path[from..][to - from..];
  }

  lemma ListPathIsNamed(path: string)
    requires ListPath(path).Some?
    ensures var m := ListPath(path).value;
      && StartsWith(path, PREFIX) && m.head == |PREFIX| + Run(path[|PREFIX|..], IsNotSlash) && |PREFIX| < m.head
      && m.head + |RouteText(m.route)| <= |path| && NameAt(path, m.head, m.route) == Some(m)
  {
    hide Run, HasLineEnd, PREFIX;
  }

  /** The parts of a list path. */
  lemma ListPathParts(path: string)
    requires ListPath(path).Some?
    ensures var m := ListPath(path).value;
      && StartsWith(path[..m.head], PREFIX) && |PREFIX| < m.head
      && AllChars(path[..m.head][|PREFIX|..], IsNotSlash)
      && (path[m.to..] == "" || path[m.to..][0] == '/')
      && !HasLineEnd(path[m.to..])
  {
    hide HasLineEnd, ListPath, NameAt, Run, RouteText, PREFIX, IsNotSlash;
    var m := ListPath(path).value;
    ListPathIsNamed(path);
    NameParts(path, m.head, m.route);
    assert path[..m.head][..|PREFIX|] == path[..|PREFIX|];
    assert forall i | 0 <= i < m.head - |PREFIX| :: path[..m.head][|PREFIX|..][i] == path[|PREFIX|..][i];
  }

  /** What an old link leads to is no old link: a redirect is never redirected
      again, whatever the folders are then. */
  lemma LegacyTagRedirectsOnce(path: string, folderIds: seq<string>, decode: Decoder, later: seq<string>)
    requires LegacyTagRedirect(path, folderIds, decode).Some?
    ensures LegacyTagRedirect(LegacyTagRedirect(path, folderIds, decode).value, later, decode).None?
  {
    var m := ListPath(path).value;
    var segment := LegacyTagSegmentOf(path).value;
    var at := ResolveLegacyTag(segment, folderIds, decode);
    ListPathParts(path);
    var list := if at.Some? then List(Tags, Print(at.value)) else TO_INBOX.list;
    var rest := if at.Some? then path[m.to..] else "";
    if at.Some? {
      PrintSegment(at.value);
    }
    InboxIsSystem();
    hide ListPath, Print, ResolveLegacyTag, IsSystemFolderId, RouteText, AllChars, StartsWith, HasLineEnd;
    assert AllChars(list.segment, IsNotSlash);
    ListPathIs(path[..m.head], list, rest);
  }

  lemma InboxIsSystem()
    ensures IsSystemFolderId(INBOX) && INBOX != "" && AllChars(INBOX, IsNotSlash)
  {
  }
}
