/** `tidyLines` of `shared/quoted-text.ts` as rewriting: which texts it makes
    alike, and which texts it leaves as they are. */
module TidyLaws {
  import opened Strings
  import opened QuotedText
  import opened TidyText

  /** Characters that nobody sees. */
  const PADDING: set<char> := {
    '\U{AD}', '\U{34F}', '\U{61C}', '\U{180E}', '\U{200B}', '\U{200C}', '\U{200E}', '\U{200F}',
    '\U{2060}', '\U{2061}', '\U{2062}', '\U{2063}', '\U{2064}', '\U{FEFF}'
  }

  /** Characters that read as a blank. */
  const BLANKS: set<char> := {
    ' ', '\t', '\U{A0}', '\U{2000}', '\U{2001}', '\U{2002}', '\U{2003}', '\U{2004}', '\U{2005}',
    '\U{2006}', '\U{2007}', '\U{2008}', '\U{2009}', '\U{200A}', '\U{202F}', '\U{205F}', '\U{3000}'
  }

  /** One blank at a time, no white space at the ends of a line, at most one empty
      line in a row, none at the ends, and nothing invisible. */
  predicate IsTidy(s: string) {
    && (forall i | 0 <= i < |s| :: s[i] !in PADDING && (s[i] in BLANKS ==> s[i] == ' '))
    && (forall i | 0 < i < |s| :: !(s[i - 1] == ' ' && s[i] == ' '))
    && (forall i | 0 < i < |s| && s[i - 1] == '\n' :: s[i] == '\n' || !IsSpace(s[i]))
    && (forall i | 0 < i < |s| && s[i] == '\n' :: s[i - 1] == '\n' || !IsSpace(s[i - 1]))
    && (forall i | 1 < i < |s| :: !(s[i - 2] == '\n' && s[i - 1] == '\n' && s[i] == '\n'))
    && (s != "" ==> !IsSpace(s[0]) && !IsSpace(s[|s| - 1]))
  }

  // ---- The three passes on a text in parts

  function Collapsed(s: string, inRun: bool): string {
    Squash(Visible(s), IsLineBlank, inRun)
  }

  /** Whether a run of blanks is under way after `s`. */
  predicate EndsInRun(s: string, p: char -> bool, inRun: bool) {
    if s == "" then inRun else p(s[|s| - 1])
  }

  lemma NothingBefore(b: string)
    ensures "" + b == b
  {
  }

  lemma FirstApart(a: string, b: string)
    requires a != ""
    ensures a == [a[0]] + a[1..] && a + b == [a[0]] + (a[1..] + b)
  {
  }

  lemma FrontJoins(h: string, a: string, b: string)
    ensures h + a + b == h + (a + b)
  {
  }

  lemma {:induction false} NoRun(p: char -> bool, inRun: bool)
    ensures EndsInRun("", p, inRun) == inRun && Squash("", p, inRun) == ""
  {
  }

  lemma RunGoesOn(a: string, p: char -> bool, inRun: bool)
    requires a != ""
    ensures EndsInRun(a, p, inRun) == EndsInRun(a[1..], p, p(a[0]))
  {
  }

  lemma {:induction false} SquashConcat(a: string, b: string, p: char -> bool, inRun: bool)
    ensures Squash(a + b, p, inRun) == Squash(a, p, inRun) + Squash(b, p, EndsInRun(a, p, inRun))
  {
    hide *;
    if a == "" {
      NothingBefore(b);
      NothingBefore(Squash(b, p, inRun));
      NoRun(p, inRun);
    } else {
      FirstApart(a, b);
      SquashCons(a[0], a[1..], p, inRun);
      SquashCons(a[0], a[1..] + b, p, inRun);
      SquashConcat(a[1..], b, p, p(a[0]));
      RunGoesOn(a, p, inRun);
      FrontJoins(if !p(a[0]) then [a[0]] else if inRun then "" else " ",
        Squash(a[1..], p, p(a[0])), Squash(b, p, EndsInRun(a, p, inRun)));
    }
  }

  lemma CharClasses(c: char)
    ensures IsInvisible(c) <==> c in PADDING
    ensures IsLineBlank(c) <==> c in BLANKS
  {
  }

  lemma Parts(a: string, m: string, b: string)
    ensures Visible(a + m + b) == Visible(a) + (Visible(m) + Visible(b))
  {
    hide Visible;
    VisibleConcat(a + m, b);
    VisibleConcat(a, m);
  }

  lemma TidyOf(s: string)
    ensures TidyLines(s) == Finish(Collapsed(s, false))
  {
    hide TidyLines, Finish, Squash, Visible;
    TidyIsFinish(s);
  }

  /** What is invisible makes no difference. */
  lemma PaddingVanishes(a: string, c: char, b: string)
    requires c in PADDING
    ensures TidyLines(a + [c] + b) == TidyLines(a + b)
  {
    hide TidyLines, Finish, Squash, Visible, PADDING, BLANKS;
    CharClasses(c);
    VisibleOne(c);
    Parts(a, [c], b);
    VisibleConcat(a, b);
    assert "" + Visible(b) == Visible(b);
    TidyOf(a + [c] + b);
    TidyOf(a + b);
  }

  lemma CollapsedParts(a: string, m: string, b: string) returns (run: bool)
    ensures Collapsed(a + m + b, false) ==
      Collapsed(a, false) + (Collapsed(m, run) + Collapsed(b, EndsInRun(Visible(m), IsLineBlank, run)))
    ensures run == EndsInRun(Visible(a), IsLineBlank, false)
  {
    hide Squash, Visible, EndsInRun;
    run := EndsInRun(Visible(a), IsLineBlank, false);
    Parts(a, m, b);
    SquashConcat(Visible(a), Visible(m) + Visible(b), IsLineBlank, false);
    SquashConcat(Visible(m), Visible(b), IsLineBlank, run);
  }

  lemma VisibleBlanks(c: char)
    requires c in BLANKS
    ensures Visible([c]) == [c] && Visible(" ") == " " && Visible(" " + [c]) == " " + [c] && IsLineBlank(c) && IsLineBlank(' ')
  {
    CharClasses(c);
    hide BLANKS, Visible;
    VisibleOne(c);
    VisibleOne(' ');
    VisibleConcat(" ", [c]);
  }

  lemma {:induction false} SquashBlanks(c: char, run: bool)
    requires IsLineBlank(c)
    ensures Squash([c], IsLineBlank, run) == Squash(" ", IsLineBlank, run)
    ensures Squash(" " + [c], IsLineBlank, run) == Squash(" ", IsLineBlank, run)
  {
    assert [c][1..] == "" && " "[1..] == "" && (" " + [c])[1..] == [c];
    assert (if run then "" else " ") + "" == if run then "" else " ";
  }

  /** Every blank reads as a space, and so does a run of two. */
  lemma BlanksAlike(a: string, c: char, b: string)
    requires c in BLANKS
    ensures TidyLines(a + [c] + b) == TidyLines(a + " " + b)
    ensures TidyLines(a + (" " + [c]) + b) == TidyLines(a + " " + b)
  {
    hide TidyLines, Finish, Squash, Visible, PADDING, BLANKS;
    VisibleBlanks(c);
    var run := CollapsedParts(a, [c], b);
    var again := CollapsedParts(a, " ", b);
    var both := CollapsedParts(a, " " + [c], b);
    SquashBlanks(c, run);
    TidyOf(a + [c] + b);
    TidyOf(a + " " + b);
    TidyOf(a + (" " + [c]) + b);
  }

  // ---- Lines

  lemma NewlineAlone(b: string)
    ensures "" + ("\n" + b) == ['\n'] + b
  {
  }

  lemma NewlineCons(ls: seq<string>)
    requires ls != []
    ensures ConsLine('\n', ls) == [""] + ls
  {
  }

  lemma ConsLines(c: char, a: seq<string>, b: seq<string>)
    requires a != []
    ensures ConsLine(c, a + b) == ConsLine(c, a) + b
  {
    assert (a + b)[0] == a[0] && (a + b)[1..] == a[1..] + b;
  }

  lemma {:induction false} LinesConcat(a: string, b: string)
    ensures Split(a + ("\n" + b), '\n') == Split(a, '\n') + Split(b, '\n')
  {
    hide *;
    if a == "" {
      NewlineAlone(b);
      LinesCons('\n', b);
      NoSplit();
      NewlineCons(Split(b, '\n'));
    } else {
      var r := a[1..] + ("\n" + b);
      FirstApart(a, "\n" + b);
      LinesCons(a[0], r);
      LinesCons(a[0], a[1..]);
      LinesConcat(a[1..], b);
      ConsLines(a[0], Split(a[1..], '\n'), Split(b, '\n'));
    }
  }

  lemma TrimEachConcat(a: seq<string>, b: seq<string>)
    ensures TrimEach(a + b) == TrimEach(a) + TrimEach(b)
  {
    hide Trim;
  }

  function LinesOf(s: string): (ls: seq<string>)
    ensures ls != []
  {
    TrimEach(Split(s, '\n'))
  }

  lemma LinesOfConcat(a: string, b: string)
    ensures LinesOf(a + ("\n" + b)) == LinesOf(a) + LinesOf(b)
  {
    hide Split, TrimEach;
    LinesConcat(a, b);
    TrimEachConcat(Split(a, '\n'), Split(b, '\n'));
  }

  /** White space at the end of a line is lost. */
  lemma LineBack(a: string, c: char)
    requires IsSpace(c) && c != '\n'
    ensures LinesOf(a + [c]) == LinesOf(a)
  {
    hide Trim, Split;
    LinesSnoc(a, c);
    var ls := Split(a, '\n');
    TrimBack(ls[|ls| - 1], c);
  }

  lemma LineFront(c: char, b: string)
    requires IsSpace(c) && c != '\n'
    ensures LinesOf([c] + b) == LinesOf(b)
  {
    hide Trim, Split;
    LinesCons(c, b);
    TrimFront(c, Split(b, '\n')[0]);
  }

  lemma FinishOf(s: string)
    ensures Finish(s) == Trim(CapNewlines(Join(LinesOf(s), '\n'), 0))
  {
    hide Trim, CapNewlines, Join, TrimEach, Split;
  }

  lemma LinesAlike(s: string, t: string)
    requires LinesOf(s) == LinesOf(t)
    ensures Finish(s) == Finish(t)
  {
    hide Finish, LinesOf, Trim, CapNewlines, Join;
    FinishOf(s);
    FinishOf(t);
  }

  lemma VisibleNewline()
    ensures Visible("\n") == "\n" && !IsLineBlank('\n')
  {
    VisibleOne('\n');
  }

  lemma {:induction false} SquashOne(c: char, run: bool)
    ensures Squash([c], IsLineBlank, run) == if !IsLineBlank(c) then [c] else if run then "" else " "
  {
    assert [c] + "" == [c];
    SquashCons(c, "", IsLineBlank, run);
    assert (if run then "" else " ") + "" == if run then "" else " ";
  }

  /** What white space becomes: itself, a blank, or nothing. */
  lemma SpaceCollapsed(c: char, run: bool)
    requires IsSpace(c) && c != '\n'
    ensures var x := Collapsed([c], run); x == "" || (|x| == 1 && IsSpace(x[0]) && x[0] != '\n')
  {
    VisibleOne(c);
    hide Visible;
    if !IsInvisible(c) {
      SquashOne(c, run);
    }
  }

  lemma {:induction false} CollapsedNewline(b: string, run: bool)
    ensures Collapsed("\n" + b, run) == "\n" + Collapsed(b, false)
  {
    hide Squash, Visible;
    VisibleNewline();
    VisibleConcat("\n", b);
    assert "\n" + Visible(b) == ['\n'] + Visible(b);
    SquashCons('\n', Visible(b), IsLineBlank, run);
  }

  lemma CollapsedConcat(a: string, b: string, run: bool)
    ensures Collapsed(a + b, run) == Collapsed(a, run) + Collapsed(b, EndsInRun(Visible(a), IsLineBlank, run))
  {
    hide Squash, Visible, EndsInRun;
    VisibleConcat(a, b);
    SquashConcat(Visible(a), Visible(b), IsLineBlank, run);
  }

  /** White space at the end of a line, or at its start, makes no difference. */
  lemma LineEdges(a: string, c: char, b: string)
    requires IsSpace(c) && c != '\n'
    ensures TidyLines(a + ([c] + ("\n" + b))) == TidyLines(a + ("\n" + b))
    ensures TidyLines(a + ("\n" + ([c] + b))) == TidyLines(a + ("\n" + b))
  {
    hide *;
    EdgeBefore(a, c, b);
    EdgeAfter(a, c, b);
  }

  lemma EdgeBefore(a: string, c: char, b: string)
    requires IsSpace(c) && c != '\n'
    ensures TidyLines(a + ([c] + ("\n" + b))) == TidyLines(a + ("\n" + b))
  {
    hide *;
    var run := EndsInRun(Visible(a), IsLineBlank, false);
    var y := Collapsed(b, false);
    CollapsedConcat(a, "\n" + b, false);
    CollapsedNewline(b, run);
    CollapsedConcat(a, [c] + ("\n" + b), false);
    CollapsedConcat([c], "\n" + b, run);
    CollapsedNewline(b, EndsInRun(Visible([c]), IsLineBlank, run));
    SpaceCollapsed(c, run);
    TidyOf(a + ([c] + ("\n" + b)));
    TidyOf(a + ("\n" + b));
    SpaceBeforeLine(Collapsed(a, false), Collapsed([c], run), y);
  }

  lemma SpaceBeforeLine(x: string, e: string, y: string)
    requires e == "" || (|e| == 1 && IsSpace(e[0]) && e[0] != '\n')
    ensures Finish(x + (e + ("\n" + y))) == Finish(x + ("\n" + y))
  {
    hide Finish, LinesOf, IsSpace;
    if e == "" {
      assert e + ("\n" + y) == "\n" + y;
    } else {
      assert x + (e + ("\n" + y)) == (x + [e[0]]) + ("\n" + y);
      LinesOfConcat(x + [e[0]], y);
      LinesOfConcat(x, y);
      LineBack(x, e[0]);
      LinesAlike(x + (e + ("\n" + y)), x + ("\n" + y));
    }
  }

  lemma EdgeAfter(a: string, c: char, b: string)
    requires IsSpace(c) && c != '\n'
    ensures TidyLines(a + ("\n" + ([c] + b))) == TidyLines(a + ("\n" + b))
  {
    hide *;
    var run := EndsInRun(Visible(a), IsLineBlank, false);
    CollapsedConcat(a, "\n" + b, false);
    CollapsedNewline(b, run);
    CollapsedConcat(a, "\n" + ([c] + b), false);
    CollapsedNewline([c] + b, run);
    CollapsedConcat([c], b, false);
    SpaceCollapsed(c, false);
    TidyOf(a + ("\n" + ([c] + b)));
    TidyOf(a + ("\n" + b));
    var later := EndsInRun(Visible([c]), IsLineBlank, false);
    CollapsedLater(b, later);
    SpaceAfterLine(Collapsed(a, false), Collapsed([c], false), Collapsed(b, later), Collapsed(b, false));
  }

  /** A run under way only takes a leading blank. */
  lemma CollapsedLater(b: string, run: bool)
    ensures Collapsed(b, false) == Collapsed(b, run) || Collapsed(b, false) == " " + Collapsed(b, run)
  {
    hide Squash, Visible;
    SquashInRun(Visible(b), IsLineBlank);
  }

  lemma SpaceAfterLine(x: string, e: string, y: string, z: string)
    requires e == "" || (|e| == 1 && IsSpace(e[0]) && e[0] != '\n')
    requires z == y || z == " " + y
    ensures Finish(x + ("\n" + (e + y))) == Finish(x + ("\n" + z))
  {
    hide Finish, LinesOf;
    LinesOfConcat(x, e + y);
    LinesOfConcat(x, z);
    LineFrontMaybe(e, y);
    LineFrontMaybe(z[..|z| - |y|], y);
    assert z == z[..|z| - |y|] + y;
    LinesAlike(x + ("\n" + (e + y)), x + ("\n" + z));
  }

  lemma LineFrontMaybe(e: string, y: string)
    requires e == "" || (|e| == 1 && IsSpace(e[0]) && e[0] != '\n')
    ensures LinesOf(e + y) == LinesOf(y)
  {
    hide LinesOf, IsSpace;
    if e == "" {
      assert e + y == y;
    } else {
      assert e + y == [e[0]] + y;
      LineFront(e[0], y);
    }
  }

  // ---- Empty lines

  lemma {:induction false} CapThree(x: string, y: string, n: nat)
    ensures CapNewlines(x + ("\n\n\n" + y), n) == CapNewlines(x + ("\n\n" + y), n)
  {
    hide CapNewlines;
    if x == "" {
      assert x + ("\n\n\n" + y) == "\n" + ("\n" + ("\n" + y)) && x + ("\n\n" + y) == "\n" + ("\n" + y);
      CapOne("\n" + ("\n" + y), n);
      CapOne("\n" + y, n);
      CapOne("\n" + y, if n >= 2 then n else n + 1);
      CapOne(y, if n >= 2 then n else n + 1);
      CapOne(y, if n >= 2 then n else 2);
    } else {
      assert x + ("\n\n\n" + y) == [x[0]] + (x[1..] + ("\n\n\n" + y));
      assert x + ("\n\n" + y) == [x[0]] + (x[1..] + ("\n\n" + y));
      CapStep(x[0], x[1..] + ("\n\n\n" + y), n);
      CapStep(x[0], x[1..] + ("\n\n" + y), n);
      CapThree(x[1..], y, if x[0] != '\n' then 0 else if n >= 2 then n else n + 1);
    }
  }

  lemma CapStep(c: char, s: string, n: nat)
    ensures CapNewlines([c] + s, n) ==
      if c != '\n' then [c] + CapNewlines(s, 0) else if n >= 2 then CapNewlines(s, n) else "\n" + CapNewlines(s, n + 1)
  {
    assert ([c] + s)[1..] == s;
  }

  lemma CapOne(s: string, n: nat)
    ensures CapNewlines("\n" + s, n) == if n >= 2 then CapNewlines(s, n) else "\n" + CapNewlines(s, n + 1)
  {
    hide CapNewlines;
    assert "\n" + s == ['\n'] + s;
    CapStep('\n', s, n);
  }

  lemma {:induction false} JoinConcat(a: seq<string>, b: seq<string>)
    requires a != [] && b != []
    ensures Join(a + b, '\n') == Join(a, '\n') + ("\n" + Join(b, '\n'))
  {
    if |a| == 1 {
      assert (a + b)[1..] == b;
    } else {
      assert (a + b)[1..] == a[1..] + b;
      JoinConcat(a[1..], b);
    }
  }

  lemma NoLine()
    ensures LinesOf("") == [""]
  {
    TrimStable("");
  }

  lemma JoinedLines(x: string, y: string)
    ensures Join(LinesOf(x + ("\n" + y)), '\n') == Join(LinesOf(x), '\n') + ("\n" + Join(LinesOf(y), '\n'))
  {
    hide LinesOf, Join;
    LinesOfConcat(x, y);
    JoinConcat(LinesOf(x), LinesOf(y));
  }

  lemma JoinedEmpty(y: string)
    ensures Join(LinesOf("\n" + y), '\n') == "\n" + Join(LinesOf(y), '\n')
  {
    hide LinesOf;
    NoLine();
    assert "" + ("\n" + y) == "\n" + y && "" + ("\n" + Join(LinesOf(y), '\n')) == "\n" + Join(LinesOf(y), '\n');
    JoinedLines("", y);
  }

  lemma FinishThree(x: string, y: string)
    ensures Finish(x + ("\n" + ("\n" + ("\n" + y)))) == Finish(x + ("\n" + ("\n" + y)))
  {
    hide Finish, LinesOf, Join, Trim, CapNewlines;
    var j, k := Join(LinesOf(x), '\n'), Join(LinesOf(y), '\n');
    JoinedEmpty(y);
    JoinedEmpty("\n" + y);
    JoinedLines(x, "\n" + ("\n" + y));
    JoinedLines(x, "\n" + y);
    FinishOf(x + ("\n" + ("\n" + ("\n" + y))));
    FinishOf(x + ("\n" + ("\n" + y)));
    assert j + ("\n" + ("\n" + ("\n" + k))) == j + ("\n\n\n" + k) && j + ("\n" + ("\n" + k)) == j + ("\n\n" + k);
    CapThree(j, k, 0);
  }

  /** Two empty lines in a row read as one. */
  lemma EmptyLinesAlike(a: string, b: string)
    ensures TidyLines(a + ("\n" + ("\n" + ("\n" + b)))) == TidyLines(a + ("\n" + ("\n" + b)))
  {
    hide *;
    var run := EndsInRun(Visible(a), IsLineBlank, false);
    CollapsedConcat(a, "\n" + ("\n" + ("\n" + b)), false);
    CollapsedConcat(a, "\n" + ("\n" + b), false);
    CollapsedNewline("\n" + ("\n" + b), run);
    CollapsedNewline("\n" + b, run);
    CollapsedNewline("\n" + b, false);
    CollapsedNewline(b, false);
    TidyOf(a + ("\n" + ("\n" + ("\n" + b))));
    TidyOf(a + ("\n" + ("\n" + b)));
    FinishThree(Collapsed(a, false), Collapsed(b, false));
  }

  // ---- Tidy text stays

  lemma {:induction false} NothingInvisible(s: string)
    requires forall i | 0 <= i < |s| :: s[i] !in PADDING
    ensures Visible(s) == s
  {
    hide Visible, PADDING;
    if s == "" {
      NoVisible();
    } else {
      CharClasses(s[0]);
      VisibleCons(s[0], s[1..]);
      assert s == [s[0]] + s[1..];
      NothingInvisible(s[1..]);
    }
  }

  lemma NoVisible()
    ensures Visible("") == ""
  {
  }

  lemma {:induction false} SingleBlanks(s: string, run: bool)
    requires forall i | 0 <= i < |s| :: s[i] in BLANKS ==> s[i] == ' '
    requires forall i | 0 < i < |s| :: !(s[i - 1] == ' ' && s[i] == ' ')
    requires run && s != "" ==> s[0] != ' '
    ensures Squash(s, IsLineBlank, run) == s
  {
    hide BLANKS, Squash, IsLineBlank;
    if s == "" {
      NoSquash(run);
    } else {
      CharClasses(s[0]);
      SquashCons(s[0], s[1..], IsLineBlank, run);
      assert s == [s[0]] + s[1..];
      SpaceIsBlank();
      SingleBlanks(s[1..], IsLineBlank(s[0]));
    }
  }

  lemma SpaceIsBlank()
    ensures IsLineBlank(' ')
  {
  }

  lemma {:induction false} NoSquash(run: bool)
    ensures Squash("", IsLineBlank, run) == ""
  {
  }

  /** Every line is without white space around it; the first one starts `s`. */
  lemma {:induction false} LinesTrimmed(s: string)
    requires forall i | 0 < i < |s| && s[i - 1] == '\n' :: s[i] == '\n' || !IsSpace(s[i])
    requires forall i | 0 < i < |s| && s[i] == '\n' :: s[i - 1] == '\n' || !IsSpace(s[i - 1])
    requires s != "" ==> !IsSpace(s[|s| - 1]) || s[|s| - 1] == '\n'
    ensures var ls := Split(s, '\n');
      && (forall i | 0 < i < |ls| :: Trim(ls[i]) == ls[i])
      && (ls[0] == "" || (ls[0][0] == s[0] && s[0] != '\n' && !IsSpace(ls[0][|ls[0]| - 1])))
      && (ls[0] == "" <==> s == "" || s[0] == '\n')
    decreases |s|
  {
    hide IsSpace, Trim, Split;
    if s == "" {
      NoSplit();
    } else {
      var c, r := s[0], s[1..];
      assert s == [c] + r;
      LinesCons(c, r);
      LinesTrimmed(r);
      var ls := Split(r, '\n');
      if c == '\n' {
        assert r != "" && r[0] != '\n' ==> !IsSpace(s[1]);
        FirstTrimmed(ls[0]);
      } else if ls[0] == "" {
        assert r == "" || s[1] == '\n';
        LastOf(c, ls[0]);
      } else {
        LastOf(c, ls[0]);
      }
    }
  }

  lemma NoSplit()
    ensures Split("", '\n') == [""]
  {
  }

  lemma FirstTrimmed(l: string)
    requires l == "" || (!IsSpace(l[0]) && !IsSpace(l[|l| - 1]))
    ensures Trim(l) == l
  {
    TrimStable(l);
  }

  lemma LastOf(c: char, l: string)
    ensures ([c] + l)[|l|] == if l == "" then c else l[|l| - 1]
  {
  }

  lemma {:induction false} JoinSplit(s: string)
    ensures Join(Split(s, '\n'), '\n') == s
  {
    if s != "" {
      hide Split;
      var c, ls := s[0], Split(s[1..], '\n');
      assert s == [c] + s[1..];
      LinesCons(c, s[1..]);
      JoinSplit(s[1..]);
      if c == '\n' {
        JoinCons(ls);
      } else {
        assert ([[c] + ls[0]] + ls[1..])[1..] == ls[1..];
      }
    }
  }

  lemma {:induction false} FewNewlines(s: string, n: nat)
    requires forall i | 1 < i < |s| :: !(s[i - 2] == '\n' && s[i - 1] == '\n' && s[i] == '\n')
    requires n <= 2 && (n == 2 ==> s == "" || s[0] != '\n')
    requires n == 1 && |s| > 1 ==> !(s[0] == '\n' && s[1] == '\n')
    ensures CapNewlines(s, n) == s
  {
    hide CapNewlines;
    if s == "" {
      NoCap(n);
    } else {
      var r := s[1..];
      assert s == [s[0]] + r;
      CapStep(s[0], r, n);
      forall i | 1 < i < |r| ensures !(r[i - 2] == '\n' && r[i - 1] == '\n' && r[i] == '\n') {
        assert r[i] == s[i + 1];
      }
      FewNewlines(r, if s[0] != '\n' then 0 else n + 1);
    }
  }

  lemma {:induction false} NoCap(n: nat)
    ensures CapNewlines("", n) == ""
  {
  }

  /** Tidy text is left as it is. */
  lemma TidyStays(s: string)
    requires IsTidy(s)
    ensures TidyLines(s) == s
  {
    hide TidyLines, Finish, Squash, Visible, PADDING, BLANKS, Split, Join, CapNewlines, Trim, IsSpace;
    NothingInvisible(s);
    SingleBlanks(s, false);
    TidyOf(s);
    TidyLinesStay(s);
    JoinSplit(s);
    FewNewlines(s, 0);
    FirstTrimmed(s);
    FinishOf(s);
  }

  lemma {:induction false} TidyLinesStay(s: string)
    requires IsTidy(s)
    ensures LinesOf(s) == Split(s, '\n')
  {
    hide PADDING, BLANKS, Split, Trim, IsSpace;
    LinesTrimmed(s);
    var ls := Split(s, '\n');
    FirstTrimmed(ls[0]);
  }

  // ---- What comes out is tidy

  predicate IsSeen(c: char) {
    c !in PADDING && (c in BLANKS ==> c == ' ')
  }

  /** `b` may stand after `a` in a tidy text. */
  predicate Fits(a: char, b: char) {
    && !(a == ' ' && b == ' ')
    && (a == '\n' ==> b == '\n' || !IsSpace(b)) && (b == '\n' ==> a == '\n' || !IsSpace(a))
  }

  predicate IsEven(s: string) {
    (forall i | 0 <= i < |s| :: IsSeen(s[i])) && forall i | 0 < i < |s| :: Fits(s[i - 1], s[i])
  }

  /** Collapsed text without its line structure. */
  predicate IsPlain(s: string) {
    (forall i | 0 <= i < |s| :: IsSeen(s[i])) && forall i | 0 < i < |s| :: !(s[i - 1] == ' ' && s[i] == ' ')
  }

  lemma {:induction false} VisibleSeen(s: string)
    ensures forall i | 0 <= i < |Visible(s)| :: Visible(s)[i] !in PADDING
  {
    hide Visible, PADDING;
    if s == "" {
      NoVisible();
    } else {
      CharClasses(s[0]);
      assert s == [s[0]] + s[1..];
      VisibleCons(s[0], s[1..]);
      VisibleSeen(s[1..]);
    }
  }

  lemma {:induction false} SquashPlainly(s: string, run: bool)
    requires forall i | 0 <= i < |s| :: s[i] !in PADDING
    ensures var x := Squash(s, IsLineBlank, run); IsPlain(x) && (run && x != "" ==> x[0] != ' ')
  {
    hide Squash, PADDING, BLANKS, IsLineBlank;
    SpaceIsBlank();
    CharClasses(' ');
    if s == "" {
      NoSquash(run);
    } else {
      CharClasses(s[0]);
      assert s == [s[0]] + s[1..];
      SquashCons(s[0], s[1..], IsLineBlank, run);
      var blank := IsLineBlank(s[0]);
      SquashPlainly(s[1..], blank);
      var x := Squash(s[1..], IsLineBlank, blank);
      BlankUnseen();
      PlainCons(if blank then ' ' else s[0], x);
      assert "" + x == x;
    }
  }

  lemma BlankUnseen()
    ensures ' ' !in PADDING
  {
  }

  lemma PlainCons(c: char, x: string)
    requires IsPlain(x) && IsSeen(c) && (c == ' ' && x != "" ==> x[0] != ' ')
    ensures IsPlain([c] + x)
  {
    hide IsSeen;
    var s := [c] + x;
    assert forall i | 0 < i < |s| :: s[i] == x[i - 1];
  }

  predicate IsLine(l: string) {
    IsPlain(l) && '\n' !in l
  }

  lemma {:induction false} SplitPlainly(s: string)
    requires IsPlain(s)
    ensures forall i | 0 <= i < |Split(s, '\n')| :: IsLine(Split(s, '\n')[i])
    ensures var l := Split(s, '\n')[0]; l != "" ==> l[0] == s[0]
  {
    hide Split, IsSeen;
    if s == "" {
      NoSplit();
    } else {
      var c, r := s[0], s[1..];
      assert s == [c] + r;
      assert IsPlain(r);
      SplitPlainly(r);
      LinesCons(c, r);
      var l := Split(r, '\n')[0];
      if c != '\n' {
        SplitHead(r);
        PlainCons(c, l);
      }
    }
  }

  /** The first line starts the text. */
  lemma {:induction false} SplitHead(s: string)
    ensures var l := Split(s, '\n')[0]; l != "" ==> s != "" && l[0] == s[0]
  {
  }

  lemma SlicePlain(s: string, a: nat, b: nat)
    requires IsPlain(s) && a <= b <= |s|
    ensures IsPlain(s[a..b]) && ('\n' !in s ==> '\n' !in s[a..b])
  {
    hide IsSeen;
  }

  lemma TrimSlice(s: string) returns (a: nat, b: nat)
    ensures a <= b <= |s| && Trim(s) == s[a..b]
  {
    a := Run(s, IsSpace);
    var t := s[a..];
    b := a + TrimEndLength(t);
    hide Run, TrimEndLength;
    assert t[..b - a] == s[a..b];
  }

  /** A trimmed line of collapsed text. */
  predicate IsNeat(l: string) {
    IsLine(l) && (l != "" ==> !IsSpace(l[0]) && !IsSpace(l[|l| - 1]))
  }

  lemma TrimNeatly(l: string)
    requires IsLine(l)
    ensures IsNeat(Trim(l))
  {
    var a, b := TrimSlice(l);
    TrimEnds(l);
    hide Trim, IsSpace, IsPlain;
    SlicePlain(l, a, b);
  }

  lemma EvenJoin(l: string, j: string)
    requires IsNeat(l) && IsEven(j) && (j != "" ==> j[0] == '\n' || !IsSpace(j[0]))
    ensures IsEven(l + ("\n" + j))
  {
    NewlineSeen();
    hide IsSeen, IsSpace;
    var s := l + ("\n" + j);
    forall i | 0 <= i < |s| ensures IsSeen(s[i]) {
      assert s[i] == if i < |l| then l[i] else if i == |l| then '\n' else j[i - |l| - 1];
    }
    forall i | 0 < i < |s| ensures Fits(s[i - 1], s[i]) {
      assert s[i - 1] == if i - 1 < |l| then l[i - 1] else if i - 1 == |l| then '\n' else j[i - |l| - 2];
      assert s[i] == if i < |l| then l[i] else if i == |l| then '\n' else j[i - |l| - 1];
    }
  }

  lemma NewlineSeen()
    ensures IsSeen('\n') && IsSpace('\n')
  {
  }

  lemma NeatIsEven(l: string)
    requires IsNeat(l)
    ensures IsEven(l)
  {
    hide IsSeen, IsSpace;
  }

  lemma {:induction false} JoinEvenly(ls: seq<string>)
    requires ls != [] && forall i | 0 <= i < |ls| :: IsNeat(ls[i])
    ensures var j := Join(ls, '\n'); IsEven(j) && (j != "" ==> j[0] == '\n' || !IsSpace(j[0]))
  {
    hide Join, IsEven, IsSpace;
    JoinStep(ls);
    if |ls| == 1 {
      NeatIsEven(ls[0]);
    } else {
      JoinEvenly(ls[1..]);
      EvenJoin(ls[0], Join(ls[1..], '\n'));
    }
  }

  lemma {:induction false} JoinStep(ls: seq<string>)
    requires ls != []
    ensures Join(ls, '\n') == if |ls| == 1 then ls[0] else ls[0] + ("\n" + Join(ls[1..], '\n'))
  {
  }

  lemma EvenCons(c: char, t: string)
    requires IsSeen(c) && IsEven(t) && (t != "" ==> Fits(c, t[0]))
    ensures IsEven([c] + t)
  {
    hide IsSeen, Fits;
    var s := [c] + t;
    forall i | 0 < i < |s| ensures Fits(s[i - 1], s[i]) {
      assert s[i] == t[i - 1];
      assert i > 1 ==> s[i - 1] == t[i - 2];
    }
  }

  lemma EvenTail(s: string)
    requires IsEven(s) && s != ""
    ensures IsEven(s[1..]) && IsSeen(s[0]) && (|s| > 1 ==> Fits(s[0], s[1]))
  {
    hide IsSeen, Fits;
    var r := s[1..];
    forall i | 0 < i < |r| ensures Fits(r[i - 1], r[i]) {
      assert Fits(s[i + 1 - 1], s[i + 1]);
    }
  }

  predicate FollowsNewline(s: string) {
    s == "" || s[0] == '\n' || !IsSpace(s[0])
  }

  lemma {:induction false} CapEvenly(s: string, n: nat)
    requires IsEven(s) && (n > 0 ==> FollowsNewline(s))
    ensures var t := CapNewlines(s, n);
      && IsEven(t) && (n > 0 ==> FollowsNewline(t)) && (n == 0 && s != "" ==> t != "" && t[0] == s[0])
  {
    hide CapNewlines, IsEven, IsSpace, IsSeen;
    if s == "" {
      NoCap(n);
    } else {
      var c, r := s[0], s[1..];
      assert s == [c] + r;
      EvenTail(s);
      CapStep(c, r, n);
      var m := if c != '\n' then 0 else if n >= 2 then n else n + 1;
      assert c == '\n' ==> FollowsNewline(r);
      CapEvenly(r, m);
      if c != '\n' || n < 2 {
        if c != '\n' && r == "" {
          NoCap(0);
        }
        EvenCons(c, CapNewlines(r, m));
      }
    }
  }

  /** No three newlines in a row, of which `n` came before. */
  predicate AreFew(s: string, n: nat) {
    && (forall i | 1 < i < |s| :: !(s[i - 2] == '\n' && s[i - 1] == '\n' && s[i] == '\n'))
    && (n >= 2 && s != "" ==> s[0] != '\n') && (n >= 1 && |s| > 1 ==> !(s[0] == '\n' && s[1] == '\n'))
  }

  lemma FewCons(c: char, t: string, n: nat)
    requires AreFew(t, if c == '\n' then n + 1 else 0) && (c == '\n' ==> n < 2)
    ensures AreFew([c] + t, n)
  {
    var s := [c] + t;
    forall i | 1 < i < |s| ensures !(s[i - 2] == '\n' && s[i - 1] == '\n' && s[i] == '\n') {
      assert s[i] == t[i - 1] && s[i - 1] == t[i - 2];
      assert i > 2 ==> s[i - 2] == t[i - 3];
    }
    assert |s| > 1 ==> s[1] == t[0];
  }

  lemma {:induction false} CapFew(s: string, n: nat)
    ensures AreFew(CapNewlines(s, n), n)
  {
    hide CapNewlines, AreFew;
    if s == "" {
      NoCap(n);
      NoneIsFew(n);
    } else {
      assert s == [s[0]] + s[1..];
      CapStep(s[0], s[1..], n);
      var m := if s[0] != '\n' then 0 else if n >= 2 then n else n + 1;
      CapFew(s[1..], m);
      if s[0] != '\n' || n < 2 {
        FewCons(s[0], CapNewlines(s[1..], m), n);
      }
    }
  }

  lemma NoneIsFew(n: nat)
    ensures AreFew("", n)
  {
  }

  lemma EvenSlice(s: string, a: nat, b: nat)
    requires IsEven(s) && AreFew(s, 0) && a <= b <= |s|
    ensures IsEven(s[a..b]) && AreFew(s[a..b], 0)
  {
    hide IsSeen, Fits;
    var t := s[a..b];
    forall i | 0 < i < |t| ensures Fits(t[i - 1], t[i]) {
      assert Fits(s[a + i - 1], s[a + i]);
    }
    forall i | 1 < i < |t| ensures !(t[i - 2] == '\n' && t[i - 1] == '\n' && t[i] == '\n') {
      assert t[i] == s[a + i];
    }
  }

  lemma EvenIsTidy(s: string)
    requires IsEven(s) && AreFew(s, 0) && (s != "" ==> !IsSpace(s[0]) && !IsSpace(s[|s| - 1]))
    ensures IsTidy(s)
  {
    hide PADDING, BLANKS, IsSpace;
    forall i | 0 <= i < |s| ensures s[i] !in PADDING && (s[i] in BLANKS ==> s[i] == ' ') {
      assert IsSeen(s[i]);
    }
    forall i | 0 < i < |s|
      ensures !(s[i - 1] == ' ' && s[i] == ' ')
      ensures s[i - 1] == '\n' ==> s[i] == '\n' || !IsSpace(s[i])
      ensures s[i] == '\n' ==> s[i - 1] == '\n' || !IsSpace(s[i - 1])
    {
      assert Fits(s[i - 1], s[i]);
    }
  }

  lemma LinesNeat(s: string)
    ensures forall i | 0 <= i < |LinesOf(Collapsed(s, false))| :: IsNeat(LinesOf(Collapsed(s, false))[i])
  {
    hide Visible, Squash, Split, Trim, IsLine, IsNeat, PADDING;
    var x := Collapsed(s, false);
    VisibleSeen(s);
    SquashPlainly(Visible(s), false);
    SplitPlainly(x);
    forall i | 0 <= i < |LinesOf(x)| ensures IsNeat(LinesOf(x)[i]) {
      TrimNeatly(Split(x, '\n')[i]);
    }
  }

  /** Tidied text is tidy, and tidying it again changes nothing. */
  lemma TidiedIsTidy(s: string)
    ensures IsTidy(TidyLines(s)) && TidyLines(TidyLines(s)) == TidyLines(s)
  {
    hide *;
    TidyOf(s);
    var x := Collapsed(s, false);
    LinesNeat(s);
    JoinEvenly(LinesOf(x));
    var j := Join(LinesOf(x), '\n');
    CapEvenly(j, 0);
    CapFew(j, 0);
    var c := CapNewlines(j, 0);
    FinishOf(x);
    TrimEnds(c);
    var a, b := TrimSlice(c);
    EvenSlice(c, a, b);
    EvenIsTidy(Trim(c));
    TidyStays(Trim(c));
  }
}
