/** Laws of `tidyLines`: outer white space and runs of blanks do not matter. */
module TidyText {
  import opened Strings
  import opened QuotedText

  // ---- Trimming

  lemma TrimFront(c: char, s: string)
    requires IsSpace(c)
    ensures Trim([c] + s) == Trim(s)
  {
    var k := Run(s, IsSpace);
    var t := [c] + s;
    RunIs(t, IsSpace, k + 1);
    assert t[k + 1..] == s[k..];
  }

  lemma TrimBack(s: string, c: char)
    requires IsSpace(c)
    ensures Trim(s + [c]) == Trim(s)
  {
    hide TrimEndLength;
    var k, t := Run(s, IsSpace), s + [c];
    if k == |s| {
      RunIs(t, IsSpace, |s| + 1);
    } else {
      RunIs(t, IsSpace, k);
      assert t[k..] == s[k..] + [c];
      TrimEndBack(s[k..], c);
    }
  }

  lemma TrimEndBack(s: string, c: char)
    requires IsSpace(c)
    ensures TrimEnd(s + [c]) == TrimEnd(s)
  {
    assert (s + [c])[..|s|] == s;
  }

  // ---- Runs collapsed to one blank

  /** Each run of characters in `p` becomes one blank; `inRun` says that a run
      is already under way. */
  function Squash(s: string, p: char -> bool, inRun: bool): string {
    if s == "" then ""
    else if p(s[0]) then (if inRun then "" else " ") + Squash(s[1..], p, true)
    else [s[0]] + Squash(s[1..], p, false)
  }

  lemma {:induction false} SquashRun(s: string, p: char -> bool)
    ensures Squash(s, p, true) == Squash(s[Run(s, p)..], p, false)
  {
    if s != "" && p(s[0]) {
      SquashRun(s[1..], p);
      assert s[1..][Run(s[1..], p)..] == s[Run(s, p)..];
    } else {
      assert s[0..] == s;
    }
  }

  /** The replace of `/[…]+/g` by a blank, one character at a time. */
  lemma {:induction false} ReplaceRuns(s: string, p: char -> bool, m: Matcher)
    requires forall x :: m(x) == RunAt(x, p, " ")
    ensures ReplaceAll(s, m) == Squash(s, p, false)
    decreases |s|
  {
    if s != "" {
      if p(s[0]) {
        var k := Run(s, p);
        ReplaceRuns(s[k..], p, m);
        SquashRun(s[1..], p);
        assert s[1..][Run(s[1..], p)..] == s[k..];
      } else {
        ReplaceRuns(s[1..], p, m);
      }
    }
  }

  lemma {:induction false} SquashPlain(w: string, r: string, p: char -> bool, inRun: bool)
    requires w != "" && forall i | 0 <= i < |w| :: !p(w[i])
    ensures Squash(w + r, p, inRun) == w + Squash(r, p, false)
  {
    assert (w + r)[1..] == w[1..] + r;
    if |w| > 1 {
      SquashPlain(w[1..], r, p, false);
    } else {
      assert w[1..] + r == r;
    }
  }

  /** What one more character adds at the end. */
  lemma {:induction false} SquashSnoc(s: string, c: char, p: char -> bool, inRun: bool)
    ensures Squash(s + [c], p, inRun) == Squash(s, p, inRun)
         || Squash(s + [c], p, inRun) == Squash(s, p, inRun) + [if p(c) then ' ' else c]
    ensures !p(c) ==> Squash(s + [c], p, inRun) == Squash(s, p, inRun) + [c]
  {
    if s == "" {
      assert s + [c] == [c] && [c][1..] == "";
    } else {
      assert (s + [c])[1..] == s[1..] + [c];
      SquashSnoc(s[1..], c, p, p(s[0]));
    }
  }

  /** Starting inside a run only drops a leading blank. */
  lemma {:induction false} SquashInRun(s: string, p: char -> bool)
    ensures Squash(s, p, false) == Squash(s, p, true)
         || Squash(s, p, false) == " " + Squash(s, p, true)
  {
  }

  // ---- Lines

  function TrimEach(ls: seq<string>): (r: seq<string>)
    ensures |r| == |ls|
  {
    seq(|ls|, i requires 0 <= i < |ls| => Trim(ls[i]))
  }

  function SquashEach(ls: seq<string>): (r: seq<string>)
    ensures |r| == |ls|
  {
    seq(|ls|, i requires 0 <= i < |ls| => Squash(ls[i], IsLineBlank, false))
  }

  /** Splitting after one more character in front. */
  function ConsLine(c: char, ls: seq<string>): (r: seq<string>)
    requires ls != []
    ensures r != []
  {
    if c == '\n' then [""] + ls else [[c] + ls[0]] + ls[1..]
  }

  lemma {:induction false} LinesCons(c: char, s: string)
    ensures Split([c] + s, '\n') == ConsLine(c, Split(s, '\n'))
  {
    assert ([c] + s)[1..] == s;
  }

  lemma {:induction false} SquashEachCons(c: char, ls: seq<string>, inRun: bool)
    requires ls != []
    requires c != '\n'
    ensures var r := ConsLine(c, ls);
      && r[1..] == ls[1..]
      && Squash(r[0], IsLineBlank, inRun)
         == (if IsLineBlank(c) then if inRun then "" else " " else [c]) + Squash(ls[0], IsLineBlank, IsLineBlank(c))
  {
    assert ([c] + ls[0])[1..] == ls[0];
  }

  lemma {:induction false} LinesSquash(s: string, inRun: bool)
    ensures Split(Squash(s, IsLineBlank, inRun), '\n')
         == [Squash(Split(s, '\n')[0], IsLineBlank, inRun)] + SquashEach(Split(s, '\n')[1..])
  {
    hide ConsLine, Split, SquashEach;
    if s == "" {
      NoLines(inRun);
    } else {
      var c, rest := s[0], Split(s[1..], '\n');
      assert s == [c] + s[1..];
      LinesCons(c, s[1..]);
      if c == '\n' {
        LinesSquash(s[1..], false);
        LinesCons('\n', Squash(s[1..], IsLineBlank, false));
        NewlineEach(rest, inRun);
      } else {
        var blank := IsLineBlank(c);
        var tail := Squash(s[1..], IsLineBlank, blank);
        LinesSquash(s[1..], blank);
        SquashEachCons(c, rest, inRun);
        if blank && inRun {
          assert "" + tail == tail;
          assert "" + Squash(rest[0], IsLineBlank, true) == Squash(rest[0], IsLineBlank, true);
        } else {
          var d := if blank then ' ' else c;
          LinesCons(d, tail);
          ConsHead(d, Squash(rest[0], IsLineBlank, blank), SquashEach(rest[1..]));
        }
      }
    }
  }

  lemma {:induction false} NoLines(inRun: bool)
    ensures Split(Squash("", IsLineBlank, inRun), '\n') == [Squash(Split("", '\n')[0], IsLineBlank, inRun)] + SquashEach(Split("", '\n')[1..])
  {
  }

  lemma {:induction false} NewlineEach(ls: seq<string>, inRun: bool)
    requires ls != []
    ensures ConsLine('\n', [Squash(ls[0], IsLineBlank, false)] + SquashEach(ls[1..]))
         == [Squash(ConsLine('\n', ls)[0], IsLineBlank, inRun)] + SquashEach(ConsLine('\n', ls)[1..])
  {
    assert ([""] + ls)[1..] == ls;
    assert SquashEach(ls) == [Squash(ls[0], IsLineBlank, false)] + SquashEach(ls[1..]);
  }

  lemma ConsHead(d: char, first: string, more: seq<string>)
    requires d != '\n'
    ensures ConsLine(d, [first] + more) == [[d] + first] + more
  {
  }

  /** Runs of newlines are cut to two; `n` newlines have just been seen. */
  function CapNewlines(s: string, n: nat): string {
    if s == "" then ""
    else if s[0] != '\n' then [s[0]] + CapNewlines(s[1..], 0)
    else if n >= 2 then CapNewlines(s[1..], n)
    else "\n" + CapNewlines(s[1..], n + 1)
  }

  lemma {:induction false} CapNewlinesRun(s: string)
    ensures CapNewlines(s, 2) == CapNewlines(s[Run(s, IsNewline)..], 0)
  {
    if s != "" && s[0] == '\n' {
      CapNewlinesRun(s[1..]);
      assert s[1..][Run(s[1..], IsNewline)..] == s[Run(s, IsNewline)..];
    } else {
      assert s[0..] == s;
    }
  }

  lemma {:induction false} CapNewlinesOther(s: string, n: nat)
    requires Run(s, IsNewline) == 0
    ensures CapNewlines(s, n) == CapNewlines(s, 0)
  {
  }

  lemma {:induction false} RunTail(s: string)
    requires Run(s, IsNewline) > 0
    ensures s[0] == '\n' && Run(s[1..], IsNewline) == Run(s, IsNewline) - 1
  {
  }

  lemma {:induction false} CapNewlinesFew(s: string)
    requires s != "" && Run(s, IsNewline) < 3
    ensures CapNewlines(s, 0) == [s[0]] + CapNewlines(s[1..], 0)
  {
    hide Run;
    if s[0] == '\n' {
      RunTail(s);
      if Run(s[1..], IsNewline) == 0 {
        CapNewlinesOther(s[1..], 1);
      } else {
        RunTail(s[1..]);
        CapNewlinesOther(s[1..][1..], 2);
        CapNewlinesOther(s[1..][1..], 1);
      }
    }
  }

  lemma CapNewlinesStep(s: string, n: nat)
    requires s != "" && s[0] == '\n' && n < 2
    ensures CapNewlines(s, n) == "\n" + CapNewlines(s[1..], n + 1)
  {
  }

  lemma {:induction false} CapNewlinesMany(s: string)
    requires Run(s, IsNewline) >= 3
    ensures CapNewlines(s, 0) == "\n\n" + CapNewlines(s[Run(s, IsNewline)..], 0)
  {
    hide *;
    var k := Run(s, IsNewline);
    RunTail(s);
    RunTail(s[1..]);
    CapNewlinesStep(s, 0);
    CapNewlinesStep(s[1..], 1);
    CapNewlinesRun(s[2..]);
    assert s[1..][1..] == s[2..] && s[2..][k - 2..] == s[k..];
    assert "\n" + ("\n" + CapNewlines(s[2..], 2)) == "\n\n" + CapNewlines(s[2..], 2);
  }

  lemma {:induction false} BlankLinesStep(s: string)
    requires s != ""
    ensures var k := Run(s, IsNewline);
      ReplaceAll(s, BlankLinesAt) ==
        if k >= 3 then "\n\n" + ReplaceAll(s[k..], BlankLinesAt) else [s[0]] + ReplaceAll(s[1..], BlankLinesAt)
  {
    hide Run;
  }

  lemma {:induction false} ReplaceBlankLines(s: string)
    ensures ReplaceAll(s, BlankLinesAt) == CapNewlines(s, 0)
    decreases |s|
  {
    if s != "" {
      hide ReplaceAll, CapNewlines, Run, BlankLinesAt;
      BlankLinesStep(s);
      var k := Run(s, IsNewline);
      if k >= 3 {
        ReplaceBlankLines(s[k..]);
        CapNewlinesMany(s);
      } else {
        ReplaceBlankLines(s[1..]);
        CapNewlinesFew(s);
      }
    }
  }

  lemma {:induction false} CapNewlinesStart(s: string, n: nat, m: nat)
    ensures Trim(CapNewlines(s, n)) == Trim(CapNewlines(s, m))
  {
    if s != "" && s[0] == '\n' {
      var a, b := if n >= 2 then n else n + 1, if m >= 2 then m else m + 1;
      CapNewlinesStart(s[1..], a, b);
      TrimFront('\n', CapNewlines(s[1..], a));
      TrimFront('\n', CapNewlines(s[1..], b));
    }
  }

  lemma {:induction false} CapNewlinesSnoc(s: string, n: nat)
    ensures CapNewlines(s + "\n", n) == CapNewlines(s, n)
         || CapNewlines(s + "\n", n) == CapNewlines(s, n) + "\n"
  {
    if s == "" {
      assert s + "\n" == "\n" && "\n"[1..] == "";
    } else {
      assert (s + "\n")[1..] == s[1..] + "\n";
      CapNewlinesSnoc(s[1..], if s[0] != '\n' then 0 else if n >= 2 then n else n + 1);
    }
  }

  lemma {:induction false} JoinSnoc(ls: seq<string>)
    requires ls != []
    ensures Join(ls + [""], '\n') == Join(ls, '\n') + "\n"
  {
    if |ls| == 1 {
      assert (ls + [""])[1..] == [""];
    } else {
      assert (ls + [""])[1..] == ls[1..] + [""];
      JoinSnoc(ls[1..]);
    }
  }

  // ---- tidyLines as three passes

  /** What `tidyLines` does once blanks are collapsed. */
  function Finish(s: string): string {
    Trim(CapNewlines(Join(TrimEach(Split(s, '\n')), '\n'), 0))
  }

  function Visible(s: string): string {
    ReplaceAll(s, InvisibleAt)
  }

  lemma TidyIsFinish(s: string)
    ensures TidyLines(s) == Finish(Squash(Visible(s), IsLineBlank, false))
  {
    var v := Visible(s);
    var ls := Split(v, '\n');
    LinesSquash(v, false);
    assert Split(Squash(v, IsLineBlank, false), '\n') == SquashEach(ls);
    forall i | 0 <= i < |ls| ensures ReplaceAll(ls[i], LineBlankAt) == Squash(ls[i], IsLineBlank, false) {
      ReplaceRuns(ls[i], IsLineBlank, LineBlankAt);
    }
    assert TidyEach(ls) == TrimEach(SquashEach(ls));
    ReplaceBlankLines(Join(TidyEach(ls), '\n'));
  }

  lemma {:induction false} JoinCons(ls: seq<string>)
    requires ls != []
    ensures Join([""] + ls, '\n') == "\n" + Join(ls, '\n')
  {
    assert ([""] + ls)[1..] == ls;
  }

  lemma FinishFront(c: char, s: string)
    requires IsSpace(c)
    ensures Finish([c] + s) == Finish(s)
  {
    hide Split, Trim, Join;
    var ls := Split(s, '\n');
    LinesCons(c, s);
    if c == '\n' {
      TrimStable("");
      assert TrimEach(Split([c] + s, '\n')) == [""] + TrimEach(ls);
      var j := Join(TrimEach(ls), '\n');
      JoinCons(TrimEach(ls));
      assert ("\n" + j)[1..] == j;
      assert CapNewlines("\n" + j, 0) == "\n" + CapNewlines(j, 1);
      TrimFront('\n', CapNewlines(j, 1));
      CapNewlinesStart(j, 1, 0);
    } else {
      TrimFront(c, ls[0]);
      assert TrimEach(Split([c] + s, '\n')) == TrimEach(ls);
    }
  }

  /** Splitting after one more character at the end. */
  function SnocLine(ls: seq<string>, c: char): seq<string>
    requires ls != []
  {
    if c == '\n' then ls + [""] else ls[..|ls| - 1] + [ls[|ls| - 1] + [c]]
  }

  lemma SnocLast(front: seq<string>, last: string, c: char)
    requires c != '\n'
    ensures SnocLine(front + [last], c) == front + [last + [c]]
  {
  }

  lemma ConsFront(d: char, front: seq<string>, last: string)
    ensures ConsLine(d, front + [last]) ==
      if d == '\n' then ([""] + front) + [last]
      else if front == [] then [] + [[d] + last]
      else ([[d] + front[0]] + front[1..]) + [last]
  {
  }

  lemma ConsEnd(d: char, ls: seq<string>)
    requires ls != []
    ensures ConsLine(d, ls + [""]) == ConsLine(d, ls) + [""]
  {
  }

  lemma ConsSnoc(d: char, ls: seq<string>, c: char)
    requires ls != []
    ensures SnocLine(ls, c) != [] && ConsLine(d, SnocLine(ls, c)) == SnocLine(ConsLine(d, ls), c)
  {
    if c == '\n' {
      ConsEnd(d, ls);
    } else {
      hide ConsLine, SnocLine;
      var front, last := ls[..|ls| - 1], ls[|ls| - 1];
      assert ls == front + [last];
      SnocLast(front, last, c);
      ConsFront(d, front, last);
      ConsFront(d, front, last + [c]);
      if d == '\n' {
        SnocLast([""] + front, last, c);
      } else if front == [] {
        SnocLast([], [d] + last, c);
        assert [d] + last + [c] == [d] + (last + [c]);
      } else {
        SnocLast([[d] + front[0]] + front[1..], last, c);
      }
    }
  }

  lemma {:induction false} LinesSnoc(s: string, c: char)
    ensures Split(s + [c], '\n') == SnocLine(Split(s, '\n'), c)
  {
    if s == "" {
      assert s + [c] == [c] + "";
      LinesCons(c, "");
      assert Split("", '\n') == [""] && [c] + "" == [c] && "" + [c] == [c];
    } else {
      var d, rest := s[0], s[1..];
      assert s + [c] == [d] + (rest + [c]);
      assert s == [d] + rest;
      LinesCons(d, rest);
      LinesCons(d, rest + [c]);
      LinesSnoc(rest, c);
      ConsSnoc(d, Split(rest, '\n'), c);
      hide Split, ConsLine, SnocLine;
    }
  }

  lemma FinishBack(s: string, c: char)
    requires IsSpace(c)
    ensures Finish(s + [c]) == Finish(s)
  {
    hide Split, Trim, Join, CapNewlines;
    var ls := Split(s, '\n');
    LinesSnoc(s, c);
    if c == '\n' {
      TrimStable("");
      assert TrimEach(Split(s + [c], '\n')) == TrimEach(ls) + [""];
      JoinSnoc(TrimEach(ls));
      var j := Join(TrimEach(ls), '\n');
      CapNewlinesSnoc(j, 0);
      TrimBack(CapNewlines(j, 0), '\n');
    } else {
      TrimBack(ls[|ls| - 1], c);
      assert TrimEach(Split(s + [c], '\n')) == TrimEach(ls);
    }
  }

  // ---- Laws

  lemma VisibleConcat(a: string, b: string)
    ensures Visible(a + b) == Visible(a) + Visible(b)
  {
    if a == "" {
      assert a + b == b;
    } else {
      assert (a + b)[1..] == a[1..] + b;
      VisibleConcat(a[1..], b);
    }
  }

  lemma VisibleOne(c: char)
    ensures Visible([c]) == if IsInvisible(c) then "" else [c]
  {
    assert [c][1..] == "";
    assert ReplaceAll("", InvisibleAt) == "" && [c] + "" == [c] && "" + "" == "";
  }

  /** Leading white space does not matter. */
  lemma TidyFront(c: char, s: string)
    requires IsSpace(c)
    ensures TidyLines([c] + s) == TidyLines(s)
  {
    TidyIsFinish([c] + s);
    TidyIsFinish(s);
    VisibleConcat([c], s);
    VisibleOne(c);
    var v := Visible(s);
    if IsInvisible(c) {
      assert "" + v == v;
    } else {
      assert ([c] + v)[1..] == v;
      var d := if IsLineBlank(c) then ' ' else c;
      var y := Squash(v, IsLineBlank, IsLineBlank(c));
      FinishFront(d, y);
      SquashInRun(v, IsLineBlank);
      FinishFront(' ', Squash(v, IsLineBlank, true));
    }
  }

  /** Trailing white space does not matter. */
  lemma TidyBack(s: string, c: char)
    requires IsSpace(c)
    ensures TidyLines(s + [c]) == TidyLines(s)
  {
    TidyIsFinish(s + [c]);
    TidyIsFinish(s);
    VisibleConcat(s, [c]);
    VisibleOne(c);
    var v := Visible(s);
    if IsInvisible(c) {
      assert v + "" == v;
    } else {
      SquashSnoc(v, c, IsLineBlank, false);
      FinishBack(Squash(v, IsLineBlank, false), if IsLineBlank(c) then ' ' else c);
    }
  }

  /** `tidyLines` of a text is that of the text without white space around it. */
  lemma {:induction false} TidyAround(a: string, s: string, b: string)
    requires AllChars(a, IsSpace) && AllChars(b, IsSpace)
    ensures TidyLines(a + s + b) == TidyLines(s)
    decreases |a| + |b|
  {
    if a != "" {
      assert a + s + b == [a[0]] + (a[1..] + s + b);
      TidyFront(a[0], a[1..] + s + b);
      TidyAround(a[1..], s, b);
    } else if b != "" {
      var k := |b| - 1;
      assert a + s + b == a + s + b[..k] + [b[k]];
      TidyBack(a + s + b[..k], b[k]);
      TidyAround(a, s, b[..k]);
    } else {
      assert a + s + b == s;
    }
  }

  predicate IsPlainBlank(c: char) {
    c == ' ' || c == '\t'
  }

  lemma {:induction false} SquashCons(c: char, r: string, p: char -> bool, inRun: bool)
    ensures Squash([c] + r, p, inRun) ==
      if p(c) then (if inRun then "" else " ") + Squash(r, p, true) else [c] + Squash(r, p, false)
  {
    assert ([c] + r)[1..] == r;
  }

  lemma VisibleCons(c: char, r: string)
    ensures Visible([c] + r) == if IsInvisible(c) then Visible(r) else [c] + Visible(r)
  {
    VisibleConcat([c], r);
    VisibleOne(c);
    assert "" + Visible(r) == Visible(r);
  }

  lemma PlainBlankIs(c: char)
    requires IsPlainBlank(c)
    ensures IsLineBlank(c) && !IsInvisible(c) && IsLineBlank(' ') && !IsInvisible(' ')
  {
  }

  lemma {:induction false} SquashTwiceBlank(c: char, rest: string, inner: bool, outer: bool)
    requires IsPlainBlank(c) && (inner ==> outer)
    requires Squash(Visible(Squash(rest, IsPlainBlank, true)), IsLineBlank, true)
          == Squash(Visible(rest), IsLineBlank, true)
    ensures Squash(Visible(Squash([c] + rest, IsPlainBlank, inner)), IsLineBlank, outer)
         == Squash(Visible([c] + rest), IsLineBlank, outer)
  {
    hide Squash, Visible;
    PlainBlankIs(c);
    var z := Squash(rest, IsPlainBlank, true);
    SquashCons(c, rest, IsPlainBlank, inner);
    VisibleCons(c, rest);
    SquashCons(c, Visible(rest), IsLineBlank, outer);
    if inner {
      assert "" + z == z && "" + Squash(Visible(z), IsLineBlank, true) == Squash(Visible(z), IsLineBlank, true);
    } else {
      VisibleCons(' ', z);
      SquashCons(' ', Visible(z), IsLineBlank, outer);
    }
  }

  lemma {:induction false} SquashTwice(s: string, inner: bool, outer: bool)
    requires inner ==> outer
    ensures Squash(Visible(Squash(s, IsPlainBlank, inner)), IsLineBlank, outer)
         == Squash(Visible(s), IsLineBlank, outer)
  {
    if s != "" {
      hide Squash, Visible, IsPlainBlank, IsLineBlank, IsInvisible;
      var c, rest := s[0], s[1..];
      assert s == [c] + rest;
      if IsPlainBlank(c) {
        SquashTwice(rest, true, true);
        SquashTwiceBlank(c, rest, inner, outer);
      } else {
        var z := Squash(rest, IsPlainBlank, false);
        SquashCons(c, rest, IsPlainBlank, inner);
        VisibleCons(c, z);
        VisibleCons(c, rest);
        if IsInvisible(c) {
          SquashTwice(rest, false, outer);
        } else {
          SquashTwice(rest, false, IsLineBlank(c));
          SquashCons(c, Visible(z), IsLineBlank, outer);
          SquashCons(c, Visible(rest), IsLineBlank, outer);
        }
      }
    }
  }

  /** Collapsing blanks and tabs beforehand makes no difference. */
  lemma {:induction false} TidySquashed(s: string)
    ensures TidyLines(Squash(s, IsPlainBlank, false)) == TidyLines(s)
  {
    TidyIsFinish(Squash(s, IsPlainBlank, false));
    TidyIsFinish(s);
    SquashTwice(s, false, false);
  }
}
