/** What the Inbox list shows, row by row: after a patch (`patchEmailListCache`
    of `shared/list-sections.ts`), on a page (`buildInboxListItems`) and in a
    window (`inboxSectionFilterSql`). */
module ListLaws {
  import opened Strings
  import opened ListSections
  import opened InboxList

  // ---- Rows

  /** No draft, and itself unread or with unread messages. */
  predicate IsNewRow(e: Row) {
    e.folderId != Some("draft") && (!e.read || (e.unread.Some? && e.unread.value > 0))
  }

  lemma NewIs(e: Row)
    ensures ConversationIsNew(e) <==> IsNewRow(e)
  {
  }

  /** The section a row comes with, or the one it belongs to. */
  predicate ShowsNew(e: Row) {
    e.section == Some(New) || (e.section.None? && IsNewRow(e))
  }

  lemma SectionIs(e: Row)
    ensures SectionOf(e) == if ShowsNew(e) then New else Seen
  {
    NewIs(e);
    hide ConversationIsNew;
  }

  // ---- After a patch

  /** `f` is row `e` after the patch, its section aside. */
  predicate IsPatched(e: Row, f: Row, p: Patch) {
    && f.id == e.id && f.threadId == e.threadId && f.folderId == e.folderId && f.date == e.date
    && if (p.id.Some? && e.id == p.id) || (p.threadId.Some? && e.threadId == p.threadId) then
         f.read == p.read && (if p.read then f.unread == Some(0)
                              else if e.unread.Some? && e.unread.value > 1 then f.unread == e.unread else f.unread == Some(1))
       else f.read == e.read && f.unread == e.unread
  }

  lemma PatchedIs(e: Row, p: Patch)
    ensures IsPatched(e, ApplyRead(e, p), p) && IsPatched(e, Annotated(ApplyRead(e, p)), p)
  {
  }

  /** The section a row is labelled with where it stands. */
  predicate IsRelabelled(e: Row, f: Row, p: Patch) {
    f.section == if (p.id.Some? && e.id == p.id) || (p.threadId.Some? && e.threadId == p.threadId)
                 then Some(if p.read then Seen else New) else e.section
  }

  lemma RelabelledIs(e: Row, p: Patch)
    ensures IsRelabelled(e, ApplyRead(e, p), p)
  {
  }

  /** In another folder every row is patched where it stands, and no counter moves. */
  lemma OtherFolder(c: Cache, folder: string, p: Patch, order: Collation)
    requires folder != "inbox"
    ensures var d := PatchEmailListCache(c, folder, p, order);
      && d == c.(emails := d.emails) && |d.emails| == |c.emails|
      && forall i | 0 <= i < |c.emails| :: IsPatched(c.emails[i], d.emails[i], p) && IsRelabelled(c.emails[i], d.emails[i], p)
  {
    hide ApplyRead, IsPatched, IsRelabelled;
    var d := PatchEmailListCache(c, folder, p, order);
    forall i | 0 <= i < |c.emails| ensures IsPatched(c.emails[i], d.emails[i], p) && IsRelabelled(c.emails[i], d.emails[i], p) {
      PatchedIs(c.emails[i], p);
      RelabelledIs(c.emails[i], p);
    }
  }

  /** `at` names each of `n` rows once. */
  predicate IsArrangement(at: seq<nat>, n: nat) {
    && |at| == n && (forall i | 0 <= i < n :: at[i] < n)
    && forall i, j | 0 <= i < j < n :: at[i] != at[j]
  }

  /** Sorting only moves rows. */
  lemma SortMoves(es: seq<Row>, order: Collation) returns (at: seq<nat>)
    ensures IsArrangement(at, |es|) && |SortNewThenSeen(es, order)| == |es|
    ensures forall i | 0 <= i < |es| :: SortNewThenSeen(es, order)[i] == es[at[i]]
  {
    var sorted := SortEntries(Indexed(es), order);
    SortEntriesSorts(Indexed(es), order);
    hide SortEntries, Before;
    OnceEach(sorted, Indexed(es));
    EntriesOf(es, sorted);
    at := seq(|es|, i requires 0 <= i < |es| => sorted[i].index);
  }

  lemma EntriesOf(es: seq<Row>, sorted: seq<Entry>)
    requires multiset(sorted) == multiset(Indexed(es))
    ensures |sorted| == |es|
    ensures forall i | 0 <= i < |sorted| :: sorted[i].index < |es| && sorted[i].row == es[sorted[i].index]
  {
    var all := Indexed(es);
    assert |sorted| == |multiset(sorted)| == |multiset(all)| == |es|;
    forall i | 0 <= i < |sorted| ensures sorted[i].index < |es| && sorted[i].row == es[sorted[i].index] {
      assert sorted[i] in multiset(all);
    }
  }

  lemma {:induction false} OnceEach(a: seq<Entry>, b: seq<Entry>)
    requires multiset(a) == multiset(b) && AreDistinct(b)
    ensures AreDistinct(a)
  {
    forall i, j | 0 <= i < j < |a| ensures a[i].index != a[j].index {
      if a[i].index == a[j].index {
        TwoAlike(a, i, j);
        OneIndex(a, b, i, j);
        CountOne(b, a[i]);
      }
    }
  }

  lemma OneIndex(a: seq<Entry>, b: seq<Entry>, i: nat, j: nat)
    requires multiset(a) == multiset(b) && AreDistinct(b) && i < j < |a| && a[i].index == a[j].index
    ensures a[i] == a[j]
  {
    assert a[i] in multiset(b) && a[j] in multiset(b);
  }

  lemma TwoAlike(a: seq<Entry>, i: nat, j: nat)
    requires i < j < |a|
    ensures a[i] == a[j] ==> multiset(a)[a[i]] >= 2
  {
    var front, back := a[..j], a[j..];
    assert a == front + back;
    assert front[i] in multiset(front) && back[0] in multiset(back);
  }

  lemma {:induction false} CountOne(b: seq<Entry>, e: Entry)
    requires AreDistinct(b)
    ensures multiset(b)[e] <= 1
  {
    if b != [] {
      var r := b[1..];
      assert b == [b[0]] + r;
      forall i, j | 0 <= i < j < |r| ensures r[i].index != r[j].index {
        assert r[i] == b[i + 1] && r[j] == b[j + 1];
      }
      CountOne(r, e);
      forall k | 0 <= k < |r| ensures r[k] != b[0] {
        assert r[k] == b[k + 1];
      }
      assert b[0] !in multiset(r);
    }
  }

  /** In the Inbox the rows are patched, sorted and labelled with their section. */
  lemma InboxPatched(c: Cache, p: Patch, order: Collation) returns (at: seq<nat>)
    ensures var es := PatchEmailListCache(c, "inbox", p, order).emails;
      && |es| == |c.emails| && IsArrangement(at, |es|)
      && forall i | 0 <= i < |es| ::
           IsPatched(c.emails[at[i]], es[i], p) && es[i].section == Some(if IsNewRow(es[i]) then New else Seen)
  {
    hide ApplyRead, IsPatched, ConversationIsNew, IsNewRow, SortNewThenSeen;
    var patched := ApplyReadToEmails(c.emails, p);
    at := SortMoves(patched, order);
    var es := PatchEmailListCache(c, "inbox", p, order).emails;
    forall i | 0 <= i < |es|
      ensures IsPatched(c.emails[at[i]], es[i], p) && es[i].section == Some(if IsNewRow(es[i]) then New else Seen)
    {
      PatchedIs(c.emails[at[i]], p);
      NewIs(es[i]);
      NewIs(patched[at[i]]);
      SectionKept(patched[at[i]]);
    }
  }

  lemma SectionKept(e: Row)
    ensures IsNewRow(Annotated(e)) <==> IsNewRow(e)
  {
  }

  // ---- On a page

  /** Rows of one section under its header; nothing without rows. */
  function Section(section: Section, count: Option<int>, rows: seq<Row>): seq<Item> {
    if rows == [] then [] else [Header(section, count)] + EmailItems(rows)
  }

  predicate AreAll(rows: seq<Row>, isNew: bool) {
    forall i | 0 <= i < |rows| :: ShowsNew(rows[i]) == isNew
  }

  lemma SectionsAre(news: seq<Row>, seen: seq<Row>)
    requires AreAll(news, true) && AreAll(seen, false)
    ensures AreNewThenSeen(news, seen)
  {
    hide ShowsNew;
    forall i | 0 <= i < |news| ensures SectionOf(news[i]).New? {
      SectionIs(news[i]);
    }
    forall i | 0 <= i < |seen| ensures SectionOf(seen[i]).Seen? {
      SectionIs(seen[i]);
    }
  }

  lemma {:induction false} PushAllNew(b: Builder, news: seq<Row>, o: Options)
    requires AreNewThenSeen(news, []) && b.last == Some(New) && b.sawNew && o.page != 1
    ensures PushAll(b, news, o) == b.(items := b.items + EmailItems(news), shownNew := b.shownNew + |news|)
    decreases |news|
  {
    if news == [] {
      assert b.items + EmailItems(news) == b.items;
    } else {
      PushAllStep(b, news, o);
      hide PushAll;
      PushAllNew(Push(b, news[0], o), news[1..], o);
      EmailItemsCons(news);
      assert b.items + [Email(news[0])] + EmailItems(news[1..]) == b.items + EmailItems(news);
    }
  }

  lemma {:induction false} NewsPushed(news: seq<Row>, o: Options)
    requires news != [] && AreNewThenSeen(news, []) && o.page != 1
    ensures PushAll(START, news, o) ==
      Builder([Header(New, o.newCount)] + EmailItems(news), Some(New), true, false, |news|, 0, false)
  {
    PushAllStep(START, news, o);
    hide PushAll, EmailItems;
    var b := Push(START, news[0], o);
    assert b == Builder([Header(New, o.newCount), Email(news[0])], Some(New), true, false, 1, 0, false);
    PushAllNew(b, news[1..], o);
    EmailItemsCons(news);
    assert [Header(New, o.newCount), Email(news[0])] + EmailItems(news[1..]) == [Header(New, o.newCount)] + EmailItems(news);
  }

  lemma {:induction false} SeenPushed(b: Builder, seen: seq<Row>, o: Options)
    requires seen != [] && AreNewThenSeen([], seen) && o.page != 1 && b.last != Some(Seen)
    ensures PushAll(b, seen, o).items == b.items + ([Header(Seen, o.seenCount)] + EmailItems(seen))
    ensures PushAll(b, seen, o).last == Some(Seen)
  {
    PushAllStep(b, seen, o);
    hide PushAll, EmailItems;
    var d := Push(b, seen[0], o);
    assert d.items == b.items + [Header(Seen, o.seenCount)] + [Email(seen[0])] && d.last == Some(Seen);
    PushSeens(d, seen[1..], o);
    EmailItemsCons(seen);
    assert b.items + [Header(Seen, o.seenCount)] + [Email(seen[0])] + EmailItems(seen[1..])
        == b.items + ([Header(Seen, o.seenCount)] + EmailItems(seen));
  }

  lemma FinishLater(b: Builder, o: Options)
    requires o.page != 1
    ensures Finish(b, o) == b.items
  {
  }

  /** A page after the first shows its sections in full, without any cap. */
  lemma LaterPage(news: seq<Row>, seen: seq<Row>, o: Options)
    requires AreAll(news, true) && AreAll(seen, false) && o.page != 1
    ensures InboxListItems(news + seen, o) == Section(New, o.newCount, news) + Section(Seen, o.seenCount, seen)
  {
    SectionsAre(news, seen);
    hide PushAll, EmailItems, Finish, Push, AreAll;
    PushAllConcat(START, news, seen, o);
    NothingPushed(START, o);
    var b := PushAll(START, news, o);
    if news != [] {
      NewsPushed(news, o);
    }
    NothingPushed(b, o);
    if seen != [] {
      SeenPushed(b, seen, o);
    }
    FinishLater(PushAll(START, news + seen, o), o);
    assert b.items == Section(New, o.newCount, news);
    assert b.items + [] == b.items;
  }

  lemma {:induction false} NothingPushed(b: Builder, o: Options)
    ensures PushAll(b, [], o) == b
  {
  }

  /** Without new rows, page 1 says so above the seen ones. */
  lemma NothingNew(seen: seq<Row>, o: Options)
    requires seen != [] && AreAll(seen, false) && o.page == 1
    ensures InboxListItems(seen, o)
         == [Header(New, Some(if o.newCount.None? then 0 else o.newCount.value)), EmptyNew, Header(Seen, o.seenCount)]
            + EmailItems(seen)
  {
    SectionsAre([], seen);
    PushAllStep(START, seen, o);
    hide PushAll, EmailItems, AreAll;
    var d := Push(START, seen[0], o);
    PushSeens(d, seen[1..], o);
    EmailItemsCons(seen);
    if Or(o.newCount, 0) == 0 {
      EmptyShown(d, seen, o);
    } else {
      EmptyAdded(d, seen, o);
    }
  }

  lemma {:induction false} EmptyShown(d: Builder, seen: seq<Row>, o: Options)
    requires seen != [] && SectionOf(seen[0]).Seen? && o.page == 1 && Or(o.newCount, 0) == 0
    requires d == Push(START, seen[0], o) && EmailItems(seen) == [Email(seen[0])] + EmailItems(seen[1..])
    requires PushAll(START, seen, o) == d.(items := d.items + EmailItems(seen[1..]), sawSeen := d.sawSeen || seen[1..] != [])
    ensures InboxListItems(seen, o)
         == [Header(New, Some(if o.newCount.None? then 0 else o.newCount.value)), EmptyNew, Header(Seen, o.seenCount)]
            + EmailItems(seen)
  {
    hide PushAll, EmailItems;
    assert d.items == [Header(New, Some(Or(o.newCount, 0))), EmptyNew, Header(Seen, o.seenCount), Email(seen[0])];
    assert EmptyNew in d.items;
    assert EmptyNew in PushAll(START, seen, o).items;
  }

  lemma {:induction false} EmptyAdded(d: Builder, seen: seq<Row>, o: Options)
    requires seen != [] && SectionOf(seen[0]).Seen? && o.page == 1 && Or(o.newCount, 0) != 0
    requires d == Push(START, seen[0], o) && EmailItems(seen) == [Email(seen[0])] + EmailItems(seen[1..])
    requires PushAll(START, seen, o) == d.(items := d.items + EmailItems(seen[1..]), sawSeen := d.sawSeen || seen[1..] != [])
    ensures InboxListItems(seen, o)
         == [Header(New, Some(if o.newCount.None? then 0 else o.newCount.value)), EmptyNew, Header(Seen, o.seenCount)]
            + EmailItems(seen)
  {
    NoEmptyIn(seen[1..]);
    hide PushAll, EmailItems;
    assert d.items == [Header(Seen, o.seenCount), Email(seen[0])];
    assert EmptyNew !in PushAll(START, seen, o).items;
  }

  lemma NoEmptyIn(es: seq<Row>)
    ensures EmptyNew !in EmailItems(es)
  {
  }

  // ---- In a window

  /** Which rows a query for the Inbox window is for: one section, or the seen ones
      and no more new ones than the limit, at most 100. */
  lemma WindowRead(section: Option<string>, newLimit: Option<real>, r: Ranked)
    ensures IsInWindow(ParseInboxSectionQuery(section, newLimit), r) <==>
      if section == Some("new") then r.isNew
      else if section == Some("seen") then !r.isNew
      else newLimit.Some? && newLimit.value >= 0.0 ==> !r.isNew || (r.rank as real <= newLimit.value && r.rank <= 100)
  {
    if newLimit.Some? && newLimit.value >= 0.0 {
      FloorIs(newLimit.value, r.rank);
    }
  }

  lemma FloorIs(x: real, n: int)
    requires x >= 0.0
    ensures n <= Max(0, (Min(x.Floor, 100) as real).Floor) <==> n as real <= x && n <= 100
  {
  }
}
