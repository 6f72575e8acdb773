/** The Inbox list in a New and a Seen section (`shared/list-sections.ts`). */
module ListSections {
  import opened Strings
  import opened Folders

  datatype Section = New | Seen

  /** A threaded list row; `read` is false when it is absent. */
  datatype Row = Row(
    id: Option<string>, threadId: Option<string>, read: bool, unread: Option<int>,
    folderId: Option<string>, date: Option<string>, section: Option<Section>)

  function Or<T>(o: Option<T>, default: T): T {
    match o
    case None => default
    case Some(v) => v
  }

  predicate ConversationIsNew(e: Row) {
    e.folderId != Some(DRAFT) && (Or(e.unread, 0) > 0 || !e.read)
  }

  function SectionFor(e: Row): Section {
    if ConversationIsNew(e) then New else Seen
  }

  function Annotated(e: Row): Row {
    e.(section := Some(SectionFor(e)))
  }

  /** `map` */
  function Mapped<A, B>(es: seq<A>, f: A -> B): (r: seq<B>)
    ensures |r| == |es| && forall i | 0 <= i < |es| :: r[i] == f(es[i])
  {
    seq(|es|, i requires 0 <= i < |es| => f(es[i]))
  }

  function Without<A>(b: seq<A>, k: nat): (r: seq<A>)
    requires k < |b|
    ensures |r| == |b| - 1
  {
    b[..k] + b[k + 1..]
  }

  lemma Removed<A>(b: seq<A>, k: nat)
    requires k < |b|
    ensures multiset(b) == multiset(Without(b, k)) + multiset{b[k]}
  {
    assert b == b[..k] + [b[k]] + b[k + 1..];
  }

  lemma MappedRemoved<A, B>(b: seq<A>, f: A -> B, k: nat)
    requires k < |b|
    ensures multiset(Mapped(b, f)) == multiset(Mapped(Without(b, k), f)) + multiset{f(b[k])}
  {
    assert Mapped(Without(b, k), f) == Without(Mapped(b, f), k);
    Removed(Mapped(b, f), k);
  }

  lemma FoundAt<A>(b: seq<A>, x: A) returns (k: nat)
    requires x in multiset(b)
    ensures k < |b| && b[k] == x
  {
    k :| 0 <= k < |b| && b[k] == x;
  }

  /** An arrangement of the rows is mapped to an arrangement of the results. */
  lemma {:induction false} MappedArranged<A, B>(a: seq<A>, b: seq<A>, f: A -> B)
    requires multiset(a) == multiset(b)
    ensures multiset(Mapped(a, f)) == multiset(Mapped(b, f))
    decreases |a|
  {
    if a == [] {
      assert |b| == |multiset(b)| == 0;
    } else {
      hide Mapped, Without;
      Removed(a, 0);
      var k := FoundAt(b, a[0]);
      Removed(b, k);
      MappedRemoved(a, f, 0);
      MappedRemoved(b, f, k);
      assert multiset(Without(a, 0)) == multiset(a) - multiset{a[0]};
      assert multiset(Without(b, k)) == multiset(b) - multiset{a[0]};
      MappedArranged(Without(a, 0), Without(b, k), f);
    }
  }

  // ---- Counting

  /** How many rows `f` holds of. */
  function Tally(es: seq<Row>, f: Row -> bool): (n: nat)
    ensures n <= |es|
  {
    if es == [] then 0 else (if f(es[0]) then 1 else 0) + Tally(es[1..], f)
  }

  function CountNew(es: seq<Row>): (n: nat)
    ensures n <= |es|
  {
    Tally(es, ConversationIsNew)
  }

  method CountListSections(emails: seq<Row>) returns (newCount: nat, seenCount: nat)
    ensures newCount == CountNew(emails) && newCount + seenCount == |emails|
  {
    newCount, seenCount := 0, 0;
    for i := 0 to |emails|
      invariant newCount + CountNew(emails[i..]) == CountNew(emails)
      invariant newCount + seenCount == i
    {
      assert emails[i..][0] == emails[i] && emails[i..][1..] == emails[i + 1..];
      if ConversationIsNew(emails[i]) {
        newCount := newCount + 1;
      } else {
        seenCount := seenCount + 1;
      }
    }
  }

  // ---- The sort

  /** Every two strings compare, and consistently. */
  ghost predicate IsPreorder(le: (string, string) -> bool) {
    && (forall a, b :: le(a, b) || le(b, a))
    && (forall a, b, c :: le(a, b) && le(b, c) ==> le(a, c))
  }

  /** How dates compare (`localeCompare`): whether one sorts with or before
      another. */
  type Collation = le: (string, string) -> bool | IsPreorder(le) witness (a: string, b: string) => true

  datatype Entry = Entry(row: Row, index: nat)

  /** New before Seen, later dates first, then as they stood. */
  predicate Before(a: Entry, b: Entry, order: Collation) {
    var x, y := Or(a.row.date, ""), Or(b.row.date, "");
    if ConversationIsNew(a.row) != ConversationIsNew(b.row) then ConversationIsNew(a.row)
    else if !order(x, y) then true
    else if !order(y, x) then false
    else a.index < b.index
  }

  lemma BeforeTotal(a: Entry, b: Entry, order: Collation)
    ensures a.index != b.index ==> Before(a, b, order) || Before(b, a, order)
    ensures !(Before(a, b, order) && Before(b, a, order))
  {
  }

  lemma BeforeTransitive(a: Entry, b: Entry, c: Entry, order: Collation)
    requires Before(a, b, order) && Before(b, c, order)
    ensures Before(a, c, order)
  {
  }

  function Indexed(es: seq<Row>): (r: seq<Entry>)
    ensures |r| == |es|
  {
    seq(|es|, i requires 0 <= i < |es| => Entry(es[i], i))
  }

  function RowOf(e: Entry): Row {
    e.row
  }

  function Insert(e: Entry, es: seq<Entry>, order: Collation): seq<Entry> {
    if es == [] || Before(e, es[0], order) then [e] + es else [es[0]] + Insert(e, es[1..], order)
  }

  function SortEntries(es: seq<Entry>, order: Collation): seq<Entry> {
    if es == [] then [] else Insert(es[0], SortEntries(es[1..], order), order)
  }

  function SortNewThenSeen(es: seq<Row>, order: Collation): seq<Row> {
    Mapped(SortEntries(Indexed(es), order), RowOf)
  }

  predicate IsSorted(es: seq<Entry>, order: Collation) {
    forall i, j | 0 <= i < j < |es| :: Before(es[i], es[j], order)
  }

  predicate AreDistinct(es: seq<Entry>) {
    forall i, j | 0 <= i < j < |es| :: es[i].index != es[j].index
  }

  lemma {:induction false} InsertMultiset(e: Entry, es: seq<Entry>, order: Collation)
    ensures multiset(Insert(e, es, order)) == multiset{e} + multiset(es)
  {
    if es != [] && !Before(e, es[0], order) {
      InsertMultiset(e, es[1..], order);
      assert es == [es[0]] + es[1..];
    }
  }

  lemma {:induction false} InsertSorted(e: Entry, es: seq<Entry>, order: Collation)
    requires IsSorted(es, order) && forall i | 0 <= i < |es| :: es[i].index != e.index
    ensures IsSorted(Insert(e, es, order), order)
  {
    hide Before;
    if es != [] {
      if Before(e, es[0], order) {
        forall i | 0 <= i < |es| ensures Before(e, es[i], order) {
          if i > 0 {
            BeforeTransitive(e, es[0], es[i], order);
          }
        }
      } else {
        InsertSorted(e, es[1..], order);
        InsertMultiset(e, es[1..], order);
        BeforeTotal(e, es[0], order);
        var r := Insert(e, es[1..], order);
        forall i | 0 <= i < |r| ensures Before(es[0], r[i], order) {
          assert r[i] in multiset(r);
          if r[i] != e {
            assert r[i] in multiset(es[1..]);
          }
        }
      }
    }
  }

  lemma {:induction false} SortEntriesStep(es: seq<Entry>, order: Collation)
    requires es != [] && AreDistinct(es)
    ensures AreDistinct(es[1..]) && es[0] !in multiset(es[1..]) && multiset(es) == multiset{es[0]} + multiset(es[1..])
    ensures SortEntries(es, order) == Insert(es[0], SortEntries(es[1..], order), order)
    ensures forall e | e in multiset(es[1..]) :: e.index != es[0].index
  {
    hide Insert;
    assert es == [es[0]] + es[1..];
  }

  lemma {:induction false} SortEntriesSorts(es: seq<Entry>, order: Collation)
    requires AreDistinct(es)
    ensures multiset(SortEntries(es, order)) == multiset(es) && IsSorted(SortEntries(es, order), order)
  {
    if es != [] {
      hide *;
      var s := SortEntries(es[1..], order);
      SortEntriesStep(es, order);
      SortEntriesSorts(es[1..], order);
      InsertMultiset(es[0], s, order);
      forall i | 0 <= i < |s| ensures s[i].index != es[0].index {
        assert s[i] in multiset(s);
      }
      InsertSorted(es[0], s, order);
    }
  }

  lemma TailSorted(a: seq<Entry>, order: Collation)
    requires a != [] && IsSorted(a, order)
    ensures IsSorted(a[1..], order) && multiset(a[1..]) == multiset(a) - multiset{a[0]}
  {
    hide Before;
    assert a == [a[0]] + a[1..];
  }

  lemma SameFirst(a: seq<Entry>, b: seq<Entry>, order: Collation)
    requires a != [] && b != [] && IsSorted(a, order) && IsSorted(b, order) && multiset(a) == multiset(b)
    ensures a[0] == b[0]
  {
    hide Before;
    assert a[0] in multiset(b) && b[0] in multiset(a);
    BeforeTotal(a[0], b[0], order);
  }

  /** There is only one sorted order, so any stable sort gives this one. */
  lemma {:induction false} SortedIsUnique(a: seq<Entry>, b: seq<Entry>, order: Collation)
    requires IsSorted(a, order) && IsSorted(b, order) && multiset(a) == multiset(b)
    ensures a == b
  {
    hide *;
    assert |a| == |multiset(a)| == |multiset(b)| == |b|;
    if a != [] {
      SameFirst(a, b, order);
      TailSorted(a, order);
      TailSorted(b, order);
      SortedIsUnique(a[1..], b[1..], order);
      assert a == [a[0]] + a[1..] && b == [b[0]] + b[1..];
    }
  }

  /** Whatever algorithm sorts the rows stably, the result is this one. */
  lemma AnyStableSort(es: seq<Row>, sorted: seq<Entry>, order: Collation)
    requires multiset(sorted) == multiset(Indexed(es)) && IsSorted(sorted, order)
    ensures Mapped(sorted, RowOf) == SortNewThenSeen(es, order)
  {
    SortEntriesSorts(Indexed(es), order);
    SortedIsUnique(sorted, SortEntries(Indexed(es), order), order);
  }

  /** Row `a` may stand before row `b`. */
  predicate InOrder(a: Row, b: Row, order: Collation) {
    if ConversationIsNew(a) != ConversationIsNew(b) then ConversationIsNew(a)
    else order(Or(b.date, ""), Or(a.date, ""))
  }

  predicate IsSortedPage(es: seq<Row>, order: Collation) {
    forall i, j | 0 <= i < j < |es| :: InOrder(es[i], es[j], order)
  }

  lemma SortSorts(es: seq<Row>, order: Collation)
    ensures var r := SortNewThenSeen(es, order);
      multiset(r) == multiset(es) && IsSortedPage(r, order) && |r| == |es|
  {
    var s := SortEntries(Indexed(es), order);
    SortEntriesSorts(Indexed(es), order);
    MappedArranged(s, Indexed(es), RowOf);
    assert Mapped(Indexed(es), RowOf) == es;
    assert |multiset(Mapped(s, RowOf))| == |multiset(es)|;
    assert forall i, j | 0 <= i < j < |s| :: Before(s[i], s[j], order);
  }

  /** Sorting a sorted page changes nothing. */
  lemma SortedStays(es: seq<Row>, order: Collation)
    requires IsSortedPage(es, order)
    ensures SortNewThenSeen(es, order) == es
  {
    var p := Indexed(es);
    forall i, j | 0 <= i < j < |p| ensures Before(p[i], p[j], order) {
      assert InOrder(es[i], es[j], order);
    }
    AnyStableSort(es, p, order);
    assert Mapped(p, RowOf) == es;
  }

  // ---- Patching a cached page

  /** Read or unread for the rows of an id, of a thread, or both. */
  datatype Patch = Patch(id: Option<string>, threadId: Option<string>, read: bool)

  predicate IsMatch(e: Row, p: Patch) {
    (p.id.Some? && e.id == p.id) || (p.threadId.Some? && e.threadId == p.threadId)
  }

  function Max(a: int, b: int): int {
    if a >= b then a else b
  }

  function Min(a: int, b: int): int {
    if a <= b then a else b
  }

  function ApplyRead(e: Row, p: Patch): Row {
    if !IsMatch(e, p) then e
    else e.(read := p.read,
            unread := Some(if p.read then 0 else Max(1, Or(e.unread, 1))),
            section := Some(if p.read then Seen else New))
  }

  function ApplyReadToEmails(es: seq<Row>, p: Patch): seq<Row> {
    Mapped(es, (e: Row) => ApplyRead(e, p))
  }

  datatype Cache = Cache(emails: seq<Row>, totalCount: int, newCount: Option<int>, seenCount: Option<int>)

  function CountSeen(es: seq<Row>): nat {
    |es| - CountNew(es)
  }

  function PatchEmailListCache(c: Cache, folder: string, p: Patch, order: Collation): Cache {
    var patched := ApplyReadToEmails(c.emails, p);
    if folder != INBOX then c.(emails := patched)
    else
      var ordered := Mapped(SortNewThenSeen(patched, order), Annotated);
      var newCount := Or(c.newCount, CountNew(c.emails)) + CountNew(ordered) - CountNew(c.emails);
      var seenCount := Or(c.seenCount, CountSeen(c.emails)) + CountSeen(ordered) - CountSeen(c.emails);
      c.(emails := ordered, newCount := Some(Max(0, newCount)), seenCount := Some(Max(0, seenCount)))
  }

  function PatchAll(c: Cache, ps: seq<Patch>, order: Collation): Cache {
    if ps == [] then c
    else PatchEmailListCache(PatchAll(c, ps[..|ps| - 1], order), INBOX, ps[|ps| - 1], order)
  }

  /** New conversations that are not on the page. */
  function NewElsewhere(c: Cache): int {
    Or(c.newCount, CountNew(c.emails)) - CountNew(c.emails)
  }

  function SeenElsewhere(c: Cache): int {
    Or(c.seenCount, CountSeen(c.emails)) - CountSeen(c.emails)
  }

  /** The totals cover the page. */
  predicate CoversPage(c: Cache) {
    NewElsewhere(c) >= 0 && SeenElsewhere(c) >= 0
  }

  /** What a patch leaves as it is in a row. */
  function Kept(e: Row): Row {
    e.(read := false, unread := None, section := None)
  }

  predicate AreAnnotated(es: seq<Row>) {
    forall i | 0 <= i < |es| :: es[i].section == Some(SectionFor(es[i]))
  }

  /** A patched row is in the section it was moved to; a draft is never New. */
  lemma PatchMoves(e: Row, p: Patch)
    ensures IsMatch(e, p) ==> (ConversationIsNew(ApplyRead(e, p)) <==> !p.read && e.folderId != Some(DRAFT))
    ensures IsMatch(ApplyRead(e, p), p) <==> IsMatch(e, p)
    ensures Kept(ApplyRead(e, p)) == Kept(e)
  {
  }

  /** Mapping rows does not change how many `f` holds of, when it does not change
      whether it does. */
  lemma {:induction false} TallyMapped(es: seq<Row>, g: Row -> Row, f: Row -> bool)
    requires forall e: Row :: f(g(e)) == f(e)
    ensures Tally(Mapped(es, g), f) == Tally(es, f)
  {
    if es != [] {
      TallyMapped(es[1..], g, f);
      assert Mapped(es, g)[1..] == Mapped(es[1..], g);
    }
  }

  lemma CountAnnotated(es: seq<Row>)
    ensures CountNew(Mapped(es, Annotated)) == CountNew(es)
  {
    TallyMapped(es, Annotated, ConversationIsNew);
  }

  /** One Inbox patch of a page its totals cover. */
  lemma PatchConserves(c: Cache, p: Patch, order: Collation)
    requires CoversPage(c)
    ensures var d := PatchEmailListCache(c, INBOX, p, order);
      && NewElsewhere(d) == NewElsewhere(c) && SeenElsewhere(d) == SeenElsewhere(c)
      && |d.emails| == |c.emails| && d.totalCount == c.totalCount
      && d.newCount.Some? && d.seenCount.Some?
      && IsSortedPage(d.emails, order) && AreAnnotated(d.emails)
      && multiset(Mapped(d.emails, Kept)) == multiset(Mapped(c.emails, Kept))
  {
    var patched := ApplyReadToEmails(c.emails, p);
    var sorted := SortNewThenSeen(patched, order);
    SortSorts(patched, order);
    MappedArranged(sorted, patched, Kept);
    assert Mapped(patched, Kept) == Mapped(c.emails, Kept);
    assert Mapped(Mapped(sorted, Annotated), Kept) == Mapped(sorted, Kept);
    forall i, j | 0 <= i < j < |sorted| ensures InOrder(Annotated(sorted[i]), Annotated(sorted[j]), order) {
      assert InOrder(sorted[i], sorted[j], order);
    }
  }

  /** Over any run of Inbox patches the counters minus the page's own rows never
      change, their sum is conserved, the clamp never fires, and the page stays a
      sorted arrangement of the same conversations, each in its section. */
  lemma {:induction false} PatchesConserve(c: Cache, ps: seq<Patch>, order: Collation)
    requires CoversPage(c) && ps != []
    ensures var d := PatchAll(c, ps, order);
      && d.newCount.Some? && d.seenCount.Some?
      && d.newCount.value - CountNew(d.emails) == NewElsewhere(c)
      && d.seenCount.value - CountSeen(d.emails) == SeenElsewhere(c)
      && d.newCount.value + d.seenCount.value == NewElsewhere(c) + SeenElsewhere(c) + |c.emails|
      && d.totalCount == c.totalCount && CoversPage(d)
      && IsSortedPage(d.emails, order) && AreAnnotated(d.emails)
      && |d.emails| == |c.emails| && multiset(Mapped(d.emails, Kept)) == multiset(Mapped(c.emails, Kept))
  {
    var before := ps[..|ps| - 1];
    if before != [] {
      PatchesConserve(c, before, order);
    }
    hide PatchEmailListCache, IsSortedPage, AreAnnotated;
    PatchConserves(PatchAll(c, before, order), ps[|ps| - 1], order);
  }

  // ---- Exactly when the counters are conserved

  lemma {:induction false} TallyConcat(a: seq<Row>, b: seq<Row>, f: Row -> bool)
    ensures Tally(a + b, f) == Tally(a, f) + Tally(b, f)
  {
    if a == [] {
      assert a + b == b;
    } else {
      assert (a + b)[0] == a[0] && (a + b)[1..] == a[1..] + b;
      TallyConcat(a[1..], b, f);
    }
  }

  lemma {:induction false} TallyWithout(a: seq<Row>, k: nat, f: Row -> bool)
    requires k < |a|
    ensures Tally(a, f) == Tally(Without(a, k), f) + Tally([a[k]], f)
  {
    hide Tally, Without;
    Apart(a, k);
    TallyConcat(a[..k], [a[k]] + a[k + 1..], f);
    TallyConcat([a[k]], a[k + 1..], f);
    TallyConcat(a[..k], a[k + 1..], f);
  }

  lemma Apart(a: seq<Row>, k: nat)
    requires k < |a|
    ensures a[..k] + ([a[k]] + a[k + 1..]) == a && a[..k] + a[k + 1..] == Without(a, k)
  {
  }

  /** Counting does not depend on the order. */
  lemma {:induction false} TallyArranged(a: seq<Row>, b: seq<Row>, f: Row -> bool)
    requires multiset(a) == multiset(b)
    ensures Tally(a, f) == Tally(b, f)
    decreases |a|
  {
    if a == [] {
      assert |b| == |multiset(b)| == 0;
    } else {
      hide Without, Tally;
      var k := FoundAt(b, a[0]);
      Removed(a, 0);
      Removed(b, k);
      TallyWithout(a, 0, f);
      TallyWithout(b, k, f);
      assert multiset(Without(a, 0)) == multiset(a) - multiset{a[0]};
      assert multiset(Without(b, k)) == multiset(b) - multiset{a[0]};
      TallyArranged(Without(a, 0), Without(b, k), f);
    }
  }

  /** The rows elsewhere are as many as before. */
  predicate IsConserved(c: Cache, d: Cache) {
    NewElsewhere(d) == NewElsewhere(c) && SeenElsewhere(d) == SeenElsewhere(c)
  }

  /** What the counters would be, without the clamp. */
  predicate StaysCounted(c: Cache, p: Patch) {
    var patched := ApplyReadToEmails(c.emails, p);
    NewElsewhere(c) + CountNew(patched) >= 0 && SeenElsewhere(c) + CountSeen(patched) >= 0
  }

  lemma PatchedCounts(c: Cache, p: Patch, order: Collation)
    ensures var d, patched := PatchEmailListCache(c, INBOX, p, order), ApplyReadToEmails(c.emails, p);
      && CountNew(d.emails) == CountNew(patched) && CountSeen(d.emails) == CountSeen(patched)
      && d.newCount == Some(Max(0, NewElsewhere(c) + CountNew(patched)))
      && d.seenCount == Some(Max(0, SeenElsewhere(c) + CountSeen(patched)))
  {
    var patched := ApplyReadToEmails(c.emails, p);
    SortSorts(patched, order);
    TallyArranged(SortNewThenSeen(patched, order), patched, ConversationIsNew);
    CountAnnotated(SortNewThenSeen(patched, order));
    hide CountNew, SortNewThenSeen, ApplyReadToEmails, IsSortedPage;
  }

  /** A patch conserves the counters exactly when neither would fall below zero,
      which the page and the patch tell beforehand. */
  lemma PatchConservesIff(c: Cache, p: Patch, order: Collation)
    ensures IsConserved(c, PatchEmailListCache(c, INBOX, p, order)) <==> StaysCounted(c, p)
  {
    PatchedCounts(c, p, order);
    hide PatchEmailListCache, CountNew, CountSeen, ApplyReadToEmails;
  }

  const UNREAD := Row(Some("a"), None, false, None, None, None, None)

  /** A page its totals do not cover: the clamp fires, and a conversation more is
      counted than before. */
  lemma ClampCounts(order: Collation)
    ensures var c, p := Cache([UNREAD], 1, Some(0), Some(0)), Patch(Some("a"), None, true);
      var d := PatchEmailListCache(c, INBOX, p, order);
      && !CoversPage(c) && !StaysCounted(c, p) && d.newCount == Some(0) && d.seenCount == Some(1)
  {
    var c, p := Cache([UNREAD], 1, Some(0), Some(0)), Patch(Some("a"), None, true);
    var patched := ApplyReadToEmails(c.emails, p);
    assert [UNREAD][1..] == [] && patched[1..] == [];
    assert CountNew([]) == 0;
    PatchedCounts(c, p, order);
  }

  // ---- Runs of patches

  /** What a patch may name a row by. */
  datatype Name = ById(id: string) | ByThread(threadId: string) | Nameless

  function NameOf(e: Row): Name {
    if e.id.Some? then ById(e.id.value) else if e.threadId.Some? then ByThread(e.threadId.value) else Nameless
  }

  /** Stays New whatever the patch. */
  predicate IsStuckNew(e: Row) {
    NameOf(e).Nameless? && ConversationIsNew(e)
  }

  predicate IsSeen(e: Row) {
    !ConversationIsNew(e)
  }

  /** Stays Seen whatever the patch: a draft, or a row that no patch names. */
  predicate IsStuckSeen(e: Row) {
    e.folderId == Some(DRAFT) || (NameOf(e).Nameless? && IsSeen(e))
  }

  /** The totals cover the rows no patch can move. */
  predicate CoversStuck(c: Cache) {
    && NewElsewhere(c) + Tally(c.emails, IsStuckNew) >= 0
    && SeenElsewhere(c) + Tally(c.emails, IsStuckSeen) >= 0
  }

  lemma {:induction false} TallySeen(es: seq<Row>)
    ensures Tally(es, IsSeen) == CountSeen(es)
  {
    if es != [] {
      TallySeen(es[1..]);
    }
  }

  lemma {:induction false} TallyFewer(es: seq<Row>, f: Row -> bool, g: Row -> bool)
    requires forall i | 0 <= i < |es| :: f(es[i]) ==> g(es[i])
    ensures Tally(es, f) <= Tally(es, g)
  {
    if es != [] {
      assert f(es[0]) ==> g(es[0]);
      assert forall i | 0 <= i < |es[1..]| :: f(es[1..][i]) ==> g(es[1..][i]);
      TallyFewer(es[1..], f, g);
    }
  }

  /** A patch leaves the stuck rows as many, on the page and before sorting. */
  lemma PatchedStuck(c: Cache, p: Patch, order: Collation, f: Row -> bool)
    requires f == IsStuckNew || f == IsStuckSeen
    ensures Tally(ApplyReadToEmails(c.emails, p), f) == Tally(c.emails, f)
    ensures Tally(PatchEmailListCache(c, INBOX, p, order).emails, f) == Tally(c.emails, f)
  {
    var patched := ApplyReadToEmails(c.emails, p);
    var sorted := SortNewThenSeen(patched, order);
    SortSorts(patched, order);
    TallyMapped(c.emails, (e: Row) => ApplyRead(e, p), f);
    TallyArranged(sorted, patched, f);
    TallyMapped(sorted, Annotated, f);
    hide Tally, SortNewThenSeen, IsSortedPage, ApplyRead;
  }

  lemma {:induction false} StuckAreFew(es: seq<Row>)
    ensures Tally(es, IsStuckNew) <= CountNew(es) && Tally(es, IsStuckSeen) <= CountSeen(es)
  {
    TallyFewer(es, IsStuckNew, ConversationIsNew);
    TallyFewer(es, IsStuckSeen, IsSeen);
    TallySeen(es);
  }

  lemma {:induction false} RunsConserve(c: Cache, ps: seq<Patch>, order: Collation)
    requires CoversStuck(c)
    ensures var d := PatchAll(c, ps, order);
      && IsConserved(c, d)
      && Tally(d.emails, IsStuckNew) == Tally(c.emails, IsStuckNew)
      && Tally(d.emails, IsStuckSeen) == Tally(c.emails, IsStuckSeen)
  {
    if ps != [] {
      var p, b := ps[|ps| - 1], PatchAll(c, ps[..|ps| - 1], order);
      RunsConserve(c, ps[..|ps| - 1], order);
      hide PatchEmailListCache, ApplyReadToEmails, Tally, CountNew, CountSeen;
      PatchedStuck(b, p, order, IsStuckNew);
      PatchedStuck(b, p, order, IsStuckSeen);
      StuckAreFew(ApplyReadToEmails(b.emails, p));
      PatchConservesIff(b, p, order);
    }
  }

  lemma PatchedRow(c: Cache, p: Patch, order: Collation, j: nat) returns (i: nat)
    requires j < |PatchEmailListCache(c, INBOX, p, order).emails|
    ensures i < |c.emails|
    ensures PatchEmailListCache(c, INBOX, p, order).emails[j] == Annotated(ApplyRead(c.emails[i], p))
  {
    var patched := ApplyReadToEmails(c.emails, p);
    var sorted := SortNewThenSeen(patched, order);
    SortSorts(patched, order);
    assert sorted[j] in multiset(patched);
    i := FoundAt(patched, sorted[j]);
  }

  /** A row of these names is New exactly when marked unread and no draft. */
  predicate IsMarked(e: Row, names: seq<Name>, read: bool) {
    NameOf(e) in names && !NameOf(e).Nameless? ==> (ConversationIsNew(e) <==> !read && e.folderId != Some(DRAFT))
  }

  predicate AreMarked(es: seq<Row>, names: seq<Name>, read: bool) {
    forall j | 0 <= j < |es| :: IsMarked(es[j], names, read)
  }

  predicate AreNamed(es: seq<Row>, names: seq<Name>) {
    forall j | 0 <= j < |es| :: NameOf(es[j]) in names
  }

  function MarkOf(name: Name, read: bool): Patch {
    match name
    case ById(id) => Patch(Some(id), None, read)
    case ByThread(threadId) => Patch(None, Some(threadId), read)
    case Nameless => Patch(None, None, read)
  }

  lemma MarkRow(e: Row, names: seq<Name>, name: Name, read: bool)
    requires IsMarked(e, names, read)
    ensures var r := Annotated(ApplyRead(e, MarkOf(name, read)));
      IsMarked(r, names + [name], read) && NameOf(r) == NameOf(e)
  {
    PatchMoves(e, MarkOf(name, read));
  }

  lemma MarkStep(c: Cache, names: seq<Name>, name: Name, read: bool, order: Collation, all: seq<Name>)
    requires AreMarked(c.emails, names, read) && AreNamed(c.emails, all)
    ensures var d := PatchEmailListCache(c, INBOX, MarkOf(name, read), order);
      && AreMarked(d.emails, names + [name], read) && AreNamed(d.emails, all)
  {
    var p := MarkOf(name, read);
    var d := PatchEmailListCache(c, INBOX, p, order);
    hide PatchEmailListCache, IsMarked, MarkOf, NameOf;
    forall j | 0 <= j < |d.emails| ensures IsMarked(d.emails[j], names + [name], read) && NameOf(d.emails[j]) in all {
      var i := PatchedRow(c, p, order, j);
      MarkRow(c.emails[i], names, name, read);
    }
  }

  /** One patch for each name, the first one for none. */
  function Marks(names: seq<Name>, read: bool): seq<Patch> {
    if names == [] then [MarkOf(Nameless, read)]
    else Marks(names[..|names| - 1], read) + [MarkOf(names[|names| - 1], read)]
  }

  lemma {:induction false} PatchAllSnoc(c: Cache, ps: seq<Patch>, p: Patch, order: Collation)
    ensures PatchAll(c, ps + [p], order) == PatchEmailListCache(PatchAll(c, ps, order), INBOX, p, order)
  {
    assert (ps + [p])[..|ps|] == ps;
    hide PatchEmailListCache;
  }

  lemma {:induction false} NoPatches(c: Cache, order: Collation)
    ensures PatchAll(c, [], order) == c
  {
  }

  lemma {:induction false} MarkAll(c: Cache, names: seq<Name>, read: bool, order: Collation, all: seq<Name>)
    requires AreNamed(c.emails, all)
    ensures var d := PatchAll(c, Marks(names, read), order);
      && AreMarked(d.emails, names, read) && AreNamed(d.emails, all)
      && d.newCount.Some? && d.newCount.value >= 0 && d.seenCount.Some? && d.seenCount.value >= 0
      && Tally(d.emails, IsStuckNew) == Tally(c.emails, IsStuckNew)
      && Tally(d.emails, IsStuckSeen) == Tally(c.emails, IsStuckSeen)
  {
    hide PatchEmailListCache, PatchAll, Tally, IsMarked;
    var before, name := if names == [] then [] else names[..|names| - 1], if names == [] then Nameless else names[|names| - 1];
    var b := if names == [] then c else PatchAll(c, Marks(before, read), order);
    if names == [] {
      NoneMarked(c.emails, read);
      NoPatches(c, order);
      PatchAllSnoc(c, [], MarkOf(Nameless, read), order);
      assert [] + [MarkOf(Nameless, read)] == Marks([], read);
    } else {
      MarkAll(c, before, read, order, all);
      PatchAllSnoc(c, Marks(before, read), MarkOf(name, read), order);
      assert before + [name] == names;
    }
    MarkStep(b, before, name, read, order, all);
    PatchedCounts(b, MarkOf(name, read), order);
    PatchedStuck(b, MarkOf(name, read), order, IsStuckNew);
    PatchedStuck(b, MarkOf(name, read), order, IsStuckSeen);
    hide AreMarked;
    if names == [] {
      NoneMarked(PatchAll(c, Marks(names, read), order).emails, read);
    }
  }

  lemma NoneMarked(es: seq<Row>, read: bool)
    ensures AreMarked(es, [], read)
  {
  }

  /** Once every name is marked, only stuck rows are not as marked. */
  lemma {:induction false} MarkedCounts(es: seq<Row>, names: seq<Name>, read: bool)
    requires AreMarked(es, names, read) && AreNamed(es, names)
    ensures read ==> CountNew(es) == Tally(es, IsStuckNew)
    ensures !read ==> CountSeen(es) == Tally(es, IsStuckSeen)
  {
    forall i | 0 <= i < |es|
      ensures read ==> (ConversationIsNew(es[i]) <==> IsStuckNew(es[i]))
      ensures !read ==> (IsSeen(es[i]) <==> IsStuckSeen(es[i]))
    {
      assert IsMarked(es[i], names, read);
    }
    TallySeen(es);
    if read {
      TallyFewer(es, ConversationIsNew, IsStuckNew);
      TallyFewer(es, IsStuckNew, ConversationIsNew);
    } else {
      TallyFewer(es, IsSeen, IsStuckSeen);
      TallyFewer(es, IsStuckSeen, IsSeen);
    }
  }

  function Names(es: seq<Row>): (names: seq<Name>)
    ensures AreNamed(es, names)
  {
    var names := seq(|es|, i requires 0 <= i < |es| => NameOf(es[i]));
    assert forall i | 0 <= i < |es| :: names[i] == NameOf(es[i]);
    names
  }

  /** Every run of patches conserves the counters exactly when they cover the rows
      that no patch can move: otherwise marking all rows read, or all unread, does
      not. */
  lemma {:induction false} RunsConserveIff(c: Cache, order: Collation)
    ensures CoversStuck(c) <==> forall ps: seq<Patch> :: IsConserved(c, PatchAll(c, ps, order))
  {
    hide PatchEmailListCache, PatchAll, Tally, CountNew, CountSeen;
    if CoversStuck(c) {
      forall ps: seq<Patch> ensures IsConserved(c, PatchAll(c, ps, order)) {
        RunsConserve(c, ps, order);
      }
    } else {
      var names, read := Names(c.emails), NewElsewhere(c) + Tally(c.emails, IsStuckNew) < 0;
      MarkAll(c, names, read, order, names);
      var d := PatchAll(c, Marks(names, read), order);
      MarkedCounts(d.emails, names, read);
      assert !IsConserved(c, d);
    }
  }

  /** Where rows have names and are no drafts, that is exactly when the counters
      cover the page. */
  lemma {:induction false} NamedRunsConserveIff(c: Cache, order: Collation)
    requires forall i | 0 <= i < |c.emails| :: !NameOf(c.emails[i]).Nameless? && c.emails[i].folderId != Some(DRAFT)
    ensures CoversPage(c) <==> forall ps: seq<Patch> :: IsConserved(c, PatchAll(c, ps, order))
  {
    RunsConserveIff(c, order);
    NoneStuck(c.emails);
  }

  lemma {:induction false} NoneStuck(es: seq<Row>)
    requires forall i | 0 <= i < |es| :: !NameOf(es[i]).Nameless? && es[i].folderId != Some(DRAFT)
    ensures Tally(es, IsStuckNew) == 0 && Tally(es, IsStuckSeen) == 0
  {
    if es != [] {
      NoneStuck(es[1..]);
    }
  }
}
