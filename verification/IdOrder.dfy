/** Ids in the order their URL indexes follow, and the index as text. */
module IdOrder {
  import opened Strings

  /** Where a character sorts when strings are compared by UTF-16 code units:
      those beyond the basic plane come before U+E000. */
  function CharKey(c: char): int {
    var n := c as int;
    if n < 0xD800 then n else if n >= 0x10000 then n - 0x10000 + 0xD800 else n + 0x100000
  }

  /** `a <= b` on strings. */
  predicate AtMost(a: string, b: string) {
    if a == "" then true
    else if b == "" then false
    else if a[0] != b[0] then CharKey(a[0]) < CharKey(b[0])
    else AtMost(a[1..], b[1..])
  }

  lemma {:induction false} AtMostTotal(a: string, b: string)
    ensures AtMost(a, b) || AtMost(b, a)
    ensures AtMost(a, b) && AtMost(b, a) ==> a == b
  {
    if a != "" && b != "" {
      if a[0] == b[0] {
        AtMostTotal(a[1..], b[1..]);
        assert a == [a[0]] + a[1..] && b == [b[0]] + b[1..];
      }
    }
  }

  lemma {:induction false} AtMostTransitive(a: string, b: string, c: string)
    requires AtMost(a, b) && AtMost(b, c)
    ensures AtMost(a, c)
  {
    if a != "" && a[0] == b[0] == c[0] {
      AtMostTransitive(a[1..], b[1..], c[1..]);
    }
  }

  function Insert(x: string, ids: seq<string>): (r: seq<string>)
    ensures |r| == |ids| + 1
  {
    if ids == [] || AtMost(x, ids[0]) then [x] + ids else [ids[0]] + Insert(x, ids[1..])
  }

  /** The ids sorted, as a fresh list. */
  function Ordered(ids: seq<string>): (r: seq<string>)
    ensures |r| == |ids|
  {
    if ids == [] then [] else Insert(ids[0], Ordered(ids[1..]))
  }

  predicate IsOrdered(ids: seq<string>) {
    forall i, j | 0 <= i < j < |ids| :: AtMost(ids[i], ids[j])
  }

  lemma {:induction false} InsertOrdered(x: string, ids: seq<string>)
    requires IsOrdered(ids)
    ensures IsOrdered(Insert(x, ids)) && multiset(Insert(x, ids)) == multiset{x} + multiset(ids)
  {
    hide AtMost;
    if ids != [] {
      AtMostTotal(x, ids[0]);
      if AtMost(x, ids[0]) {
        forall j | 0 <= j < |ids| ensures AtMost(x, ids[j]) {
          if j > 0 {
            AtMostTransitive(x, ids[0], ids[j]);
          }
        }
      } else {
        InsertOrdered(x, ids[1..]);
        var r := Insert(x, ids[1..]);
        assert ids == [ids[0]] + ids[1..];
        forall j | 0 <= j < |r| ensures AtMost(ids[0], r[j]) {
          assert r[j] in multiset(r);
        }
      }
    }
  }

  lemma {:induction false} OrderedOrders(ids: seq<string>)
    ensures IsOrdered(Ordered(ids)) && multiset(Ordered(ids)) == multiset(ids)
  {
    if ids != [] {
      OrderedOrders(ids[1..]);
      InsertOrdered(ids[0], Ordered(ids[1..]));
      assert ids == [ids[0]] + ids[1..];
    }
  }

  lemma TailOrdered(a: seq<string>)
    requires a != [] && IsOrdered(a)
    ensures IsOrdered(a[1..]) && multiset(a[1..]) == multiset(a) - multiset{a[0]}
  {
    hide AtMost;
    assert a == [a[0]] + a[1..];
  }

  lemma SameFirst(a: seq<string>, b: seq<string>)
    requires a != [] && b != [] && IsOrdered(a) && IsOrdered(b) && multiset(a) == multiset(b)
    ensures a[0] == b[0]
  {
    hide AtMost;
    assert a[0] in multiset(b) && b[0] in multiset(a);
    AtMostTotal(a[0], b[0]);
  }

  lemma {:induction false} OrderIsUnique(a: seq<string>, b: seq<string>)
    requires IsOrdered(a) && IsOrdered(b) && multiset(a) == multiset(b)
    ensures a == b
  {
    hide *;
    assert |a| == |multiset(a)| == |multiset(b)| == |b|;
    if a != [] {
      SameFirst(a, b);
      TailOrdered(a);
      TailOrdered(b);
      OrderIsUnique(a[1..], b[1..]);
      assert a == [a[0]] + a[1..] && b == [b[0]] + b[1..];
    }
  }

  /** The order of the input does not matter. */
  lemma {:induction false} OrderedAgree(a: seq<string>, b: seq<string>)
    requires multiset(a) == multiset(b)
    ensures Ordered(a) == Ordered(b)
  {
    OrderedOrders(a);
    OrderedOrders(b);
    OrderIsUnique(Ordered(a), Ordered(b));
  }

  /** Ordering an ordered list changes nothing. */
  lemma {:induction false} OrderedAgain(ids: seq<string>)
    ensures Ordered(Ordered(ids)) == Ordered(ids)
  {
    OrderedOrders(ids);
    OrderedAgree(Ordered(ids), ids);
  }

  /** `indexOf` in a list. */
  function Position(ids: seq<string>, id: string): (r: Option<nat>)
    ensures r.Some? ==> r.value < |ids| && ids[r.value] == id
    ensures r.Some? <==> id in ids
  {
    if ids == [] then None
    else if ids[0] == id then Some(0)
    else match Position(ids[1..], id)
      case None => None
      case Some(k) => Some(k + 1)
  }

  lemma {:induction false} OrderedKeeps(ids: seq<string>, id: string)
    ensures id in Ordered(ids) <==> id in ids
  {
    OrderedOrders(ids);
    assert id in Ordered(ids) <==> id in multiset(Ordered(ids));
    assert id in ids <==> id in multiset(ids);
  }

  // ---- Indexes as text

  function Digit(n: nat): char
    requires n < 10
  {
    (n + 48) as char
  }

  /** `String(n)` */
  function Print(n: nat): (s: string)
    ensures s != ""
  {
    if n < 10 then [Digit(n)] else Print(n / 10) + [Digit(n % 10)]
  }

  function Number(s: string): nat
    requires AllChars(s, IsDigit)
  {
    if s == "" then 0 else Number(s[..|s| - 1]) * 10 + (s[|s| - 1] as int - 48)
  }

  /** `/^(0|[1-9]\d{0,3})$/` and its number. */
  function ParseMailboxIndex(segment: string): Option<nat> {
    if segment == "0" then Some(0)
    else if 1 <= |segment| <= 4 && AllChars(segment, IsDigit) && segment[0] != '0' then Some(Number(segment))
    else None
  }

  lemma {:induction false} PrintDigits(n: nat)
    ensures AllChars(Print(n), IsDigit) && Number(Print(n)) == n
    ensures n > 0 ==> Print(n)[0] != '0'
  {
    if n >= 10 {
      PrintDigits(n / 10);
      assert Print(n)[..|Print(n)| - 1] == Print(n / 10);
    } else {
      assert Print(n)[..0] == "" && Number("") == 0;
    }
  }

  lemma {:induction false} PrintLength(n: nat)
    ensures n < 10000 <==> |Print(n)| <= 4
  {
    if n < 10000 {
      assert n / 10 / 10 / 10 < 10;
    } else {
      assert n / 10 / 10 / 10 >= 10;
      assert |Print(n / 10 / 10 / 10)| >= 2;
      assert |Print(n / 10 / 10)| >= 3 && |Print(n / 10)| >= 4;
    }
  }

  /** An index reads back exactly when it is below 10,000. */
  lemma {:induction false} IndexReadsBack(n: nat)
    ensures ParseMailboxIndex(Print(n)) == if n < 10000 then Some(n) else None
  {
    PrintDigits(n);
    PrintLength(n);
    if n == 0 {
      assert Print(0) == "0";
    } else {
      assert Print(n) != "0" by {
        assert Print(n)[0] != '0';
      }
    }
  }

  lemma {:induction false} NumberPrints(s: string)
    requires s != "" && AllChars(s, IsDigit) && (|s| > 1 ==> s[0] != '0')
    ensures Print(Number(s)) == s && (|s| > 1 ==> Number(s) >= 10) && (s[0] != '0' ==> Number(s) > 0)
  {
    var head, last := s[..|s| - 1], s[|s| - 1];
    var v := last as int - 48;
    assert s == head + [last] && Digit(v) == last;
    if head == "" {
      assert Number(head) == 0;
    } else {
      assert head[0] == s[0];
      NumberPrints(head);
      hide AllChars, Number, Print;
      PrintStep(Number(head), v);
      NumberStep(s);
    }
  }

  lemma PrintStep(n: nat, v: nat)
    requires n > 0 && v < 10
    ensures Print(n * 10 + v) == Print(n) + [Digit(v)]
  {
    assert (n * 10 + v) / 10 == n && (n * 10 + v) % 10 == v;
  }

  lemma {:induction false} NumberStep(s: string)
    requires s != "" && AllChars(s, IsDigit)
    ensures AllChars(s[..|s| - 1], IsDigit) && Number(s) == Number(s[..|s| - 1]) * 10 + (s[|s| - 1] as int - 48)
  {
  }

  /** A segment names an index exactly when it is the index as it is printed:
      no other text names a mailbox or tag by position. */
  lemma {:induction false} IndexExactly(segment: string, n: nat)
    ensures ParseMailboxIndex(segment) == Some(n) <==> n < 10000 && segment == Print(n)
  {
    IndexReadsBack(n);
    if ParseMailboxIndex(segment) == Some(n) {
      if segment == "0" {
        assert Print(0) == "0";
      } else {
        NumberPrints(segment);
        PrintLength(n);
      }
    }
  }

  predicate IsNotSlash(c: char) {
    c != '/'
  }

  lemma {:induction false} PrintSegment(n: nat)
    ensures AllChars(Print(n), IsNotSlash)
  {
    PrintDigits(n);
  }
}
