/** The rows the Inbox shows (`buildInboxListItems`) and the total of its window
    (`inboxSectionFilterSql`, `inboxSectionTotal`). */
module InboxList {
  import opened Strings
  import opened ListSections

  // ---- The list builder

  datatype Item =
    | Header(id: Section, count: Option<int>)
    | EmptyNew
    | ShowMore(hiddenCount: int)
    | Email(email: Row)

  datatype Options = Options(page: int, newCount: Option<int>, seenCount: Option<int>, limit: Option<int>)

  function SectionOf(e: Row): Section {
    match e.section
    case Some(s) => s
    case None => SectionFor(e)
  }

  /** What the loop keeps: the items, the last section shown, and its counters. */
  datatype Builder = Builder(
    items: seq<Item>, last: Option<Section>, sawNew: bool, sawSeen: bool,
    shownNew: nat, skippedNew: nat, showMoreAdded: bool)

  const START := Builder([], None, false, false, 0, 0, false)

  function AddShowMore(b: Builder, o: Options): Builder {
    if b.showMoreAdded || o.limit.None? || o.page != 1 then b
    else
      var total := Max(Or(o.newCount, 0), b.shownNew + b.skippedNew);
      var items := if total > b.shownNew then b.items + [ShowMore(total - b.shownNew)] else b.items;
      b.(items := items, showMoreAdded := true)
  }

  predicate IsOverCap(b: Builder, o: Options) {
    o.limit.Some? && o.page == 1 && b.shownNew >= o.limit.value
  }

  function NoNew(o: Options): seq<Item> {
    [Header(New, Some(Or(o.newCount, 0))), EmptyNew]
  }

  /** The header before the first row of a section. */
  function OpenSection(b: Builder, section: Section, o: Options): Builder {
    if b.last == Some(section) then b else
    var b := if b.last == Some(New) then AddShowMore(b, o) else b;
    var none := section.Seen? && !b.sawNew && o.page == 1 && Or(o.newCount, 0) == 0;
    var header := Header(section, if section.New? then o.newCount else o.seenCount);
    b.(items := (if none then b.items + NoNew(o) else b.items) + [header], last := Some(section))
  }

  function Push(b: Builder, e: Row, o: Options): Builder {
    var section := SectionOf(e);
    if section.New? && IsOverCap(b, o) then b.(sawNew := true, skippedNew := b.skippedNew + 1)
    else
      var b := if section.New? then b.(sawNew := true) else b.(sawSeen := true);
      var b := OpenSection(b, section, o);
      b.(items := b.items + [Email(e)], shownNew := if section.New? then b.shownNew + 1 else b.shownNew)
  }

  function PushAll(b: Builder, es: seq<Row>, o: Options): Builder
    decreases |es|
  {
    if es == [] then b else PushAll(Push(b, es[0], o), es[1..], o)
  }

  function Finish(b: Builder, o: Options): seq<Item> {
    var b := if b.last == Some(New) then AddShowMore(b, o) else b;
    if o.page == 1 && !b.sawNew && b.sawSeen && EmptyNew !in b.items then NoNew(o) + b.items else b.items
  }

  function InboxListItems(es: seq<Row>, o: Options): seq<Item> {
    Finish(PushAll(START, es, o), o)
  }

  /** `addShowMore` on the loop's variables. */
  method ShowMoreRow(items: seq<Item>, added: bool, shownNew: nat, skippedNew: nat, o: Options)
    returns (out: seq<Item>, done: bool)
    ensures forall last, sawNew, sawSeen ::
      AddShowMore(Builder(items, last, sawNew, sawSeen, shownNew, skippedNew, added), o)
      == Builder(out, last, sawNew, sawSeen, shownNew, skippedNew, done)
  {
    out, done := items, added;
    if added || o.limit.None? || o.page != 1 {
      return;
    }
    var total := Max(Or(o.newCount, 0), shownNew + skippedNew);
    if total > shownNew {
      out := items + [ShowMore(total - shownNew)];
    }
    done := true;
  }

  method BuildInboxListItems(emails: seq<Row>, o: Options) returns (items: seq<Item>)
    ensures items == InboxListItems(emails, o)
  {
    items := [];
    var last: Option<Section> := None;
    var sawNew, sawSeen, showMoreAdded := false, false, false;
    var shownNew, skippedNew: nat := 0, 0;
    for i := 0 to |emails|
      invariant PushAll(Builder(items, last, sawNew, sawSeen, shownNew, skippedNew, showMoreAdded), emails[i..], o)
             == PushAll(START, emails, o)
    {
      var email := emails[i];
      assert emails[i..][0] == email && emails[i..][1..] == emails[i + 1..];
      var section := SectionOf(email);
      if section == New {
        sawNew := true;
        if o.limit.Some? && o.page == 1 && shownNew >= o.limit.value {
          skippedNew := skippedNew + 1;
          continue;
        }
      }
      if section == Seen {
        sawSeen := true;
      }
      if Some(section) != last {
        if last == Some(New) {
          items, showMoreAdded := ShowMoreRow(items, showMoreAdded, shownNew, skippedNew, o);
        }
        if section == Seen && !sawNew && o.page == 1 && (o.newCount == Some(0) || o.newCount == None) {
          items := items + NoNew(o);
        }
        items := items + [Header(section, if section == New then o.newCount else o.seenCount)];
        last := Some(section);
      }
      items := items + [Email(email)];
      if section == New {
        shownNew := shownNew + 1;
      }
    }
    if last == Some(New) {
      items, showMoreAdded := ShowMoreRow(items, showMoreAdded, shownNew, skippedNew, o);
    }
    if o.page == 1 && !sawNew && sawSeen && EmptyNew !in items {
      items := NoNew(o) + items;
    }
  }

  // ---- Whatever the rows, only New rows over the cap are left out

  function EmailsOf(items: seq<Item>): seq<Row> {
    if items == [] then []
    else (if items[0].Email? then [items[0].email] else []) + EmailsOf(items[1..])
  }

  /** The rows without the New ones past the cap, of which `shown` are used. */
  function Capped(es: seq<Row>, o: Options, shown: nat): seq<Row> {
    if es == [] then []
    else if SectionOf(es[0]).Seen? then [es[0]] + Capped(es[1..], o, shown)
    else if o.limit.Some? && o.page == 1 && shown >= o.limit.value then Capped(es[1..], o, shown)
    else [es[0]] + Capped(es[1..], o, shown + 1)
  }

  lemma {:induction false} EmailsConcat(a: seq<Item>, b: seq<Item>)
    ensures EmailsOf(a + b) == EmailsOf(a) + EmailsOf(b)
  {
    if a == [] {
      assert a + b == b;
    } else {
      assert (a + b)[0] == a[0] && (a + b)[1..] == a[1..] + b;
      EmailsConcat(a[1..], b);
      var head := if a[0].Email? then [a[0].email] else [];
      assert head + (EmailsOf(a[1..]) + EmailsOf(b)) == (head + EmailsOf(a[1..])) + EmailsOf(b);
    }
  }

  lemma NoEmails(o: Options, h: Section, count: Option<int>, n: int)
    ensures EmailsOf([]) == [] && EmailsOf([ShowMore(n)]) == [] && EmailsOf([Header(h, count)]) == []
    ensures EmailsOf(NoNew(o)) == []
  {
    assert [ShowMore(n)][1..] == [] && [Header(h, count)][1..] == [];
    assert NoNew(o)[1..] == [EmptyNew] && [EmptyNew][1..] == [];
  }

  lemma ShowMoreEmails(b: Builder, o: Options)
    ensures EmailsOf(AddShowMore(b, o).items) == EmailsOf(b.items)
  {
    var total := Max(Or(o.newCount, 0), b.shownNew + b.skippedNew);
    NoEmails(o, New, None, total - b.shownNew);
    EmailsConcat(b.items, [ShowMore(total - b.shownNew)]);
  }

  lemma OpenEmails(b: Builder, section: Section, o: Options)
    ensures EmailsOf(OpenSection(b, section, o).items) == EmailsOf(b.items)
  {
    hide AddShowMore, NoNew, EmailsOf;
    ShowMoreEmails(b, o);
    var c := if b.last == Some(New) then AddShowMore(b, o) else b;
    var header := Header(section, if section.New? then o.newCount else o.seenCount);
    NoEmails(o, section, header.count, 0);
    EmailsConcat(c.items, NoNew(o));
    EmailsConcat(c.items + NoNew(o), [header]);
    EmailsConcat(c.items, [header]);
  }

  lemma PushEmails(b: Builder, e: Row, o: Options)
    ensures var over := SectionOf(e).New? && IsOverCap(b, o);
      && EmailsOf(Push(b, e, o).items) == EmailsOf(b.items) + (if over then [] else [e])
      && Push(b, e, o).shownNew == b.shownNew + (if SectionOf(e).New? && !over then 1 else 0)
  {
    var section := SectionOf(e);
    var c := if section.New? then b.(sawNew := true) else b.(sawSeen := true);
    OpenEmails(c, section, o);
    EmailsConcat(OpenSection(c, section, o).items, [Email(e)]);
    assert EmailsOf([Email(e)]) == [e] by {
      assert [Email(e)][1..] == [];
    }
    OpenShown(c, section, o);
    hide OpenSection, EmailsOf, IsOverCap;
  }

  lemma OpenShown(b: Builder, section: Section, o: Options)
    ensures OpenSection(b, section, o).shownNew == b.shownNew
  {
  }

  lemma {:induction false} PushAllEmails(b: Builder, es: seq<Row>, o: Options)
    ensures EmailsOf(PushAll(b, es, o).items) == EmailsOf(b.items) + Capped(es, o, b.shownNew)
    decreases |es|
  {
    if es != [] {
      PushEmails(b, es[0], o);
      hide Push, EmailsOf;
      PushAllEmails(Push(b, es[0], o), es[1..], o);
    }
  }

  /** On every page and for every row order, the rows shown are the input's in
      order, without the New rows past the cap on page 1. */
  lemma {:induction false} RowsShown(es: seq<Row>, o: Options)
    ensures EmailsOf(InboxListItems(es, o)) == Capped(es, o, 0)
  {
    PushAllEmails(START, es, o);
    var b := PushAll(START, es, o);
    ShowMoreEmails(b, o);
    var c := if b.last == Some(New) then AddShowMore(b, o) else b;
    EmailsConcat(NoNew(o), c.items);
    NoEmails(o, New, None, 0);
    hide EmailsOf, AddShowMore, NoNew, PushAll;
  }

  // ---- Page 1

  predicate AreNewThenSeen(news: seq<Row>, seen: seq<Row>) {
    && (forall i | 0 <= i < |news| :: SectionOf(news[i]).New?)
    && (forall i | 0 <= i < |seen| :: SectionOf(seen[i]).Seen?)
  }

  function EmailItems(es: seq<Row>): (r: seq<Item>)
    ensures |r| == |es|
  {
    seq(|es|, i requires 0 <= i < |es| => Email(es[i]))
  }

  /** How many of `n` New rows are shown. */
  function Shown(n: nat, o: Options): nat {
    match o.limit
    case None => n
    case Some(limit) => if limit < 0 then 0 else if limit < n then limit else n
  }

  /** New header and rows, how many more there are, Seen header and rows. */
  function Layout(news: seq<Row>, seen: seq<Row>, o: Options): seq<Item> {
    var shown := Shown(|news|, o);
    var hidden := Max(Or(o.newCount, 0), |news|) - shown;
    [Header(New, o.newCount)] + EmailItems(news[..shown])
    + (if o.limit.Some? && hidden > 0 then [ShowMore(hidden)] else [])
    + (if seen == [] then [] else [Header(Seen, o.seenCount)] + EmailItems(seen))
  }

  /** Pushing New rows after the first `k`. */
  lemma {:induction false} PushNews(b: Builder, news: seq<Row>, k: nat, o: Options)
    requires 0 < k <= |news| && AreNewThenSeen(news, []) && o.page == 1 && Shown(1, o) == 1
    requires b == Builder([Header(New, o.newCount)] + EmailItems(news[..Shown(k, o)]), Some(New), true, false,
                          Shown(k, o), k - Shown(k, o), false)
    ensures PushAll(b, news[k..], o) ==
      Builder([Header(New, o.newCount)] + EmailItems(news[..Shown(|news|, o)]), Some(New), true, false,
              Shown(|news|, o), |news| - Shown(|news|, o), false)
    decreases |news| - k
  {
    if k == |news| {
      assert news[k..] == [];
    } else {
      assert news[k..][0] == news[k] && news[k..][1..] == news[k + 1..];
      if Shown(k + 1, o) > Shown(k, o) {
        assert news[..k + 1] == news[..k] + [news[k]];
        assert EmailItems(news[..k + 1]) == EmailItems(news[..k]) + [Email(news[k])];
      }
      hide PushAll;
      PushAllStep(b, news[k..], o);
      PushNews(Push(b, news[k], o), news, k + 1, o);
    }
  }

  lemma {:induction false} PushAllStep(b: Builder, es: seq<Row>, o: Options)
    requires es != []
    ensures PushAll(b, es, o) == PushAll(Push(b, es[0], o), es[1..], o)
  {
  }

  lemma {:induction false} PushSeens(b: Builder, seen: seq<Row>, o: Options)
    requires AreNewThenSeen([], seen) && b.last == Some(Seen)
    ensures PushAll(b, seen, o) == b.(items := b.items + EmailItems(seen), sawSeen := b.sawSeen || seen != [])
    decreases |seen|
  {
    if seen == [] {
      assert b.items + EmailItems(seen) == b.items;
    } else {
      PushAllStep(b, seen, o);
      hide PushAll;
      PushSeens(Push(b, seen[0], o), seen[1..], o);
      assert EmailItems(seen) == [Email(seen[0])] + EmailItems(seen[1..]);
      assert b.items + [Email(seen[0])] + EmailItems(seen[1..]) == b.items + EmailItems(seen);
    }
  }

  lemma {:induction false} PushAllConcat(b: Builder, x: seq<Row>, y: seq<Row>, o: Options)
    ensures PushAll(b, x + y, o) == PushAll(PushAll(b, x, o), y, o)
    decreases |x|
  {
    if x == [] {
      assert x + y == y;
    } else {
      assert (x + y)[1..] == x[1..] + y;
      hide Push;
      PushAllConcat(Push(b, x[0], o), x[1..], y, o);
    }
  }

  /** After the New rows: those shown, and how many were left out. */
  function AfterNews(news: seq<Row>, o: Options): Builder {
    var shown := Shown(|news|, o);
    Builder([Header(New, o.newCount)] + EmailItems(news[..shown]), Some(New), true, false, shown, |news| - shown, false)
  }

  predicate HasCap(o: Options) {
    o.limit.Some? ==> o.limit.value >= 1
  }

  lemma {:induction false} PushAllNews(news: seq<Row>, o: Options)
    requires news != [] && AreNewThenSeen(news, []) && o.page == 1 && HasCap(o)
    ensures PushAll(START, news, o) == AfterNews(news, o)
  {
    PushAllStep(START, news, o);
    assert EmailItems(news[..1]) == [Email(news[0])];
    assert START.items + [Header(New, o.newCount)] + [Email(news[0])]
        == [Header(New, o.newCount)] + EmailItems(news[..1]);
    PushNews(Push(START, news[0], o), news, 1, o);
  }

  /** Ends the New section: how many more there are, if any. */
  lemma EndNews(news: seq<Row>, o: Options)
    requires o.page == 1
    ensures var b, c := AfterNews(news, o), AddShowMore(AfterNews(news, o), o);
      && c.items == b.items + (if o.limit.Some? && Max(Or(o.newCount, 0), |news|) > b.shownNew
           then [ShowMore(Max(Or(o.newCount, 0), |news|) - b.shownNew)] else [])
      && c.last == Some(New) && c.sawNew && !c.sawSeen
  {
  }

  /** The New section ended, the Seen header and rows after it. */
  function AfterSeen(news: seq<Row>, seen: seq<Row>, o: Options): Builder {
    var c := AddShowMore(AfterNews(news, o), o);
    c.(items := c.items + [Header(Seen, o.seenCount)] + EmailItems(seen), last := Some(Seen), sawSeen := true)
  }

  lemma {:induction false} PushAllOldSeen(news: seq<Row>, seen: seq<Row>, o: Options)
    requires seen != [] && AreNewThenSeen([], seen) && o.page == 1
    ensures PushAll(AfterNews(news, o), seen, o) == AfterSeen(news, seen, o)
  {
    hide PushAll, EmailItems;
    var b, c := AfterNews(news, o), AddShowMore(AfterNews(news, o), o);
    var d := c.(items := c.items + [Header(Seen, o.seenCount)] + [Email(seen[0])], last := Some(Seen), sawSeen := true);
    PushAllStep(b, seen, o);
    assert Push(b, seen[0], o) == d;
    hide AddShowMore, AfterNews, Push;
    PushSeens(d, seen[1..], o);
    EmailItemsCons(seen);
  }

  lemma EmailItemsCons(es: seq<Row>)
    requires es != []
    ensures EmailItems(es) == [Email(es[0])] + EmailItems(es[1..])
  {
  }

  lemma FinishSeen(news: seq<Row>, seen: seq<Row>, o: Options)
    requires seen != [] && o.page == 1
    requires InboxListItems(news + seen, o) == Finish(AfterSeen(news, seen, o), o)
    ensures InboxListItems(news + seen, o) == Layout(news, seen, o)
  {
    hide InboxListItems, EmailItems, AddShowMore;
    EndNews(news, o);
  }

  /** On page 1, with New rows first and a cap of at least one: the New header and
      rows up to the cap, the row that counts the others, the Seen header and all
      Seen rows. */
  lemma PageOneLayout(news: seq<Row>, seen: seq<Row>, o: Options)
    requires news != [] && AreNewThenSeen(news, seen) && o.page == 1 && HasCap(o)
    ensures InboxListItems(news + seen, o) == Layout(news, seen, o)
  {
    PushAllConcat(START, news, seen, o);
    PushAllNews(news, o);
    if seen == [] {
      assert PushAll(AfterNews(news, o), seen, o) == AfterNews(news, o);
      hide PushAll;
      EndNews(news, o);
    } else {
      hide PushAll, Push, AfterNews, AfterSeen, Finish, Layout, EmailItems;
      PushAllOldSeen(news, seen, o);
      FinishSeen(news, seen, o);
    }
  }

  lemma {:induction false} PushNoNews(b: Builder, news: seq<Row>, o: Options)
    requires AreNewThenSeen(news, []) && o.page == 1 && !HasCap(o)
    ensures PushAll(b, news, o) == b.(sawNew := b.sawNew || news != [], skippedNew := b.skippedNew + |news|)
    decreases |news|
  {
    if news != [] {
      PushAllStep(b, news, o);
      hide PushAll;
      PushNoNews(Push(b, news[0], o), news[1..], o);
    }
  }

  /** Exactly the caps of at least one give that layout: without one the New rows
      are dropped and nothing counts them. */
  lemma PageOneLayoutIff(news: seq<Row>, seen: seq<Row>, o: Options)
    requires news != [] && AreNewThenSeen(news, seen) && o.page == 1
    ensures InboxListItems(news + seen, o) == Layout(news, seen, o) <==> HasCap(o)
  {
    if HasCap(o) {
      PageOneLayout(news, seen, o);
    } else {
      PushAllConcat(START, news, seen, o);
      PushNoNews(START, news, o);
      assert Layout(news, seen, o)[0] == Header(New, o.newCount);
      var b := START.(sawNew := true, skippedNew := |news|);
      if seen == [] {
        assert PushAll(b, seen, o) == b;
      } else {
        PushAllStep(b, seen, o);
        var d := b.(items := [Header(Seen, o.seenCount), Email(seen[0])], last := Some(Seen), sawSeen := true);
        assert Push(b, seen[0], o) == d;
        hide PushAll, Push, Layout;
        PushSeens(d, seen[1..], o);
      }
    }
  }

  // ---- The window and its total

  /** `section` wins over `new_limit`. */
  datatype Query = Query(section: Option<Section>, newLimit: Option<real>)

  /** `parseInboxSectionQuery`; `newLimit` is the number given, if it is one. */
  function ParseInboxSectionQuery(section: Option<string>, newLimit: Option<real>): Query {
    var s := if section == Some("new") then Some(New) else if section == Some("seen") then Some(Seen) else None;
    match newLimit
    case None => Query(s, None)
    case Some(n) => Query(s, if n >= 0.0 then Some(Min(n.Floor, 100) as real) else None)
  }

  /** A row of the window query: its rank within its section, from 1. */
  datatype Ranked = Ranked(isNew: bool, rank: int)

  /** The filter of `inboxSectionFilterSql` as a predicate. */
  predicate IsInWindow(q: Query, r: Ranked) {
    if q.section == Some(New) then r.isNew
    else if q.section == Some(Seen) then !r.isNew
    else if q.newLimit.Some? then !r.isNew || r.rank <= Max(0, q.newLimit.value.Floor)
    else true
  }

  function InboxSectionTotal(newCount: nat, seenCount: nat, q: Query): real {
    if q.section == Some(New) then newCount as real
    else if q.section == Some(Seen) then seenCount as real
    else if q.newLimit.Some? then
      (if newCount as real <= q.newLimit.value then newCount as real else q.newLimit.value) + seenCount as real
    else (newCount + seenCount) as real
  }

  /** The rows the filter keeps. */
  function Window(rs: seq<Ranked>, q: Query): seq<Ranked> {
    if rs == [] then [] else (if IsInWindow(q, rs[0]) then [rs[0]] else []) + Window(rs[1..], q)
  }

  /** The ranks of a section, in the order the rows come. */
  function Ranks(rs: seq<Ranked>, isNew: bool): seq<int> {
    if rs == [] then [] else (if rs[0].isNew == isNew then [rs[0].rank] else []) + Ranks(rs[1..], isNew)
  }

  function UpTo(n: nat): seq<int> {
    if n == 0 then [] else UpTo(n - 1) + [n]
  }

  /** Every section is ranked 1, 2, … in some order of the rows. */
  predicate AreRanked(rs: seq<Ranked>, newCount: nat, seenCount: nat) {
    && multiset(Ranks(rs, true)) == multiset(UpTo(newCount))
    && multiset(Ranks(rs, false)) == multiset(UpTo(seenCount))
  }

  function CountUpTo(ranks: seq<int>, limit: int): nat {
    if ranks == [] then 0 else (if ranks[0] <= limit then 1 else 0) + CountUpTo(ranks[1..], limit)
  }

  lemma {:induction false} CountSplit(a: seq<int>, b: seq<int>, limit: int)
    ensures CountUpTo(a + b, limit) == CountUpTo(a, limit) + CountUpTo(b, limit)
  {
    if a == [] {
      assert a + b == b;
    } else {
      assert (a + b)[0] == a[0] && (a + b)[1..] == a[1..] + b;
      CountSplit(a[1..], b, limit);
    }
  }

  lemma {:induction false} CountWithout(a: seq<int>, k: nat, limit: int)
    requires k < |a|
    ensures CountUpTo(a, limit) == CountUpTo(Without(a, k), limit) + (if a[k] <= limit then 1 else 0)
  {
    assert a == a[..k] + ([a[k]] + a[k + 1..]) && [a[k]][1..] == [];
    CountSplit(a[..k], [a[k]] + a[k + 1..], limit);
    CountSplit([a[k]], a[k + 1..], limit);
    CountSplit(a[..k], a[k + 1..], limit);
    assert CountUpTo([a[k]], limit) == (if a[k] <= limit then 1 else 0);
  }

  /** Counting does not depend on the order. */
  lemma {:induction false} CountArranged(a: seq<int>, b: seq<int>, limit: int)
    requires multiset(a) == multiset(b)
    ensures CountUpTo(a, limit) == CountUpTo(b, limit)
    decreases |a|
  {
    if a == [] {
      assert |b| == |multiset(b)| == 0;
    } else {
      hide Without, CountUpTo;
      var k := FoundAt(b, a[0]);
      Removed(a, 0);
      Removed(b, k);
      CountWithout(a, 0, limit);
      CountWithout(b, k, limit);
      assert multiset(Without(a, 0)) == multiset(a) - multiset{a[0]};
      assert multiset(Without(b, k)) == multiset(b) - multiset{a[0]};
      CountArranged(Without(a, 0), Without(b, k), limit);
    }
  }

  lemma {:induction false} CountRanks(n: nat, limit: nat)
    ensures CountUpTo(UpTo(n), limit) == Min(n, limit) && |UpTo(n)| == n
  {
    if n > 0 {
      CountRanks(n - 1, limit);
      CountSplit(UpTo(n - 1), [n], limit);
      assert [n][1..] == [];
    }
  }

  lemma {:induction false} WindowCounts(rs: seq<Ranked>, q: Query)
    ensures |Window(rs, q)| ==
      if q.section == Some(New) then |Ranks(rs, true)|
      else if q.section == Some(Seen) then |Ranks(rs, false)|
      else if q.newLimit.Some? then CountUpTo(Ranks(rs, true), Max(0, q.newLimit.value.Floor)) + |Ranks(rs, false)|
      else |Ranks(rs, true)| + |Ranks(rs, false)|
  {
    if rs != [] {
      WindowCounts(rs[1..], q);
      var rest := Ranks(rs[1..], true);
      assert ([rs[0].rank] + rest)[1..] == rest && [] + rest == rest;
    }
  }

  /** A limit the filter and the total read alike: it covers all New rows, or is
      a whole number that is not negative. */
  predicate IsSoundLimit(limit: real, newCount: nat) {
    limit >= newCount as real || (limit >= 0.0 && limit == limit.Floor as real)
  }

  lemma {:induction false} WindowSize(rs: seq<Ranked>, newCount: nat, seenCount: nat, q: Query)
    requires AreRanked(rs, newCount, seenCount)
    ensures |Window(rs, q)| ==
      if q.section == Some(New) then newCount
      else if q.section == Some(Seen) then seenCount
      else if q.newLimit.Some? then Min(newCount, Max(0, q.newLimit.value.Floor)) + seenCount
      else newCount + seenCount
  {
    var limit := Max(0, Or(q.newLimit, 0.0).Floor);
    WindowCounts(rs, q);
    CountArranged(Ranks(rs, true), UpTo(newCount), limit);
    CountRanks(newCount, limit);
    CountRanks(seenCount, limit);
    assert |Ranks(rs, true)| == |multiset(Ranks(rs, true))| == |multiset(UpTo(newCount))| == newCount;
    assert |Ranks(rs, false)| == |multiset(Ranks(rs, false))| == |multiset(UpTo(seenCount))| == seenCount;
  }

  /** The declared total is the size of the window, for every ranked set of rows,
      exactly for the queries with a section or without a limit, and sound limits. */
  lemma {:induction false} TotalMatchesIff(rs: seq<Ranked>, newCount: nat, seenCount: nat, q: Query)
    requires AreRanked(rs, newCount, seenCount)
    ensures |Window(rs, q)| as real == InboxSectionTotal(newCount, seenCount, q) <==>
      (q.section.Some? || q.newLimit.None? || IsSoundLimit(q.newLimit.value, newCount))
  {
    WindowSize(rs, newCount, seenCount, q);
    hide Window, AreRanked, IsSoundLimit;
    match q.section {
      case Some(New) =>
      case Some(Seen) =>
      case None =>
        if q.newLimit.Some? {
          var limit := q.newLimit.value;
          LimitsAgree(newCount, seenCount, limit);
          assert |Window(rs, q)| == Min(newCount, Max(0, limit.Floor)) + seenCount;
        }
    }
  }

  lemma LimitsAgree(n: nat, seen: nat, limit: real)
    ensures (Min(n, Max(0, limit.Floor)) + seen) as real
         == (if n as real <= limit then n as real else limit) + seen as real
       <==> IsSoundLimit(limit, n)
  {
    var f := limit.Floor;
    var shown := Min(n, Max(0, f));
    assert (shown + seen) as real == shown as real + seen as real;
    if n as real <= limit {
      assert f >= n && shown == n;
    } else {
      assert f < n && shown == Max(0, f);
    }
  }

  lemma ParsedIsSound(section: Option<string>, newLimit: Option<real>, newCount: nat)
    ensures var q := ParseInboxSectionQuery(section, newLimit);
      q.section.Some? || q.newLimit.None? || IsSoundLimit(q.newLimit.value, newCount)
  {
  }

  /** Every query that was parsed has such a limit, so its total is the size of
      its window. */
  lemma {:induction false} TotalMatchesWindow(rs: seq<Ranked>, newCount: nat, seenCount: nat, section: Option<string>, newLimit: Option<real>)
    requires AreRanked(rs, newCount, seenCount)
    ensures var q := ParseInboxSectionQuery(section, newLimit);
      |Window(rs, q)| as real == InboxSectionTotal(newCount, seenCount, q)
  {
    hide *;
    ParsedIsSound(section, newLimit, newCount);
    TotalMatchesIff(rs, newCount, seenCount, ParseInboxSectionQuery(section, newLimit));
  }
}
