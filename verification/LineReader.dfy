/** Reading a document line by line, with any line ends and with tabs expanded. */
module LineReader {
  import opened Wrappers
  import opened Streams

  const SPACES_PER_INITIAL_TAB: nat := 4

  function Spaces(n: nat): (r: string)
    ensures |r| == n && forall c <- r :: c == ' '
  {
    seq(n, _ => ' ')
  }

  /** The spaces that take a line of length `n` to the next tab stop. */
  function TabFill(n: nat, initial: bool, tab: nat): string
    requires tab > 0
  {
    var convert := if initial then SPACES_PER_INITIAL_TAB else tab;
    Spaces(convert - n % convert)
  }

  datatype Got = Got(line: string, rest: string, ok: bool)

  function SkipChar(s: string, c: char): (r: string)
    ensures |r| <= |s|
  {
    if s != "" && s[0] == c then s[1..] else s
  }

  /** The line begun with `line` on the text `s`; `initial` while only blanks have been seen. */
  function LineFrom(line: string, initial: bool, s: string, tab: nat): (g: Got)
    requires tab > 0
    ensures |g.rest| <= |s| && (g.ok && line == "" ==> |g.rest| < |s|)
    decreases |s|
  {
    if s == "" then Got(line, "", line != "")
    else if s[0] == '\r' then Got(line, SkipChar(s[1..], '\n'), true)
    else if s[0] == '\n' then Got(line, SkipChar(s[1..], '\r'), true)
    else if s[0] == '\t' then LineFrom(line + TabFill(|line|, initial, tab), initial, s[1..], tab)
    else LineFrom(line + [s[0]], initial && s[0] == ' ', s[1..], tab)
  }

  /** The lines of a text. */
  function Lines(s: string, tab: nat): seq<string>
    requires tab > 0
    decreases |s|
  {
    var g := LineFrom("", true, s, tab);
    if g.ok then [g.line] + Lines(g.rest, tab) else []
  }

  method GetLine(input: InputStream, tab: nat) returns (line: string, ok: bool)
    requires input.Valid() && tab > 0
    modifies input
    ensures input.Valid() && Got(line, input.Remaining(), ok) == LineFrom("", true, old(input.Remaining()), tab)
  {
    line := "";
    var initialWhitespace := true;
    ghost var s := input.Remaining();
    while true
      invariant input.Valid()
      invariant LineFrom(line, initialWhitespace, input.Remaining(), tab) == LineFrom("", true, s, tab)
      decreases |input.Remaining()|
    {
      var c := input.Get();
      if c == None {
        break;
      }
      if c.value == '\r' {
        SkipNext(input, '\n');
        return line, true;
      } else if c.value == '\n' {
        SkipNext(input, '\r');
        return line, true;
      } else if c.value == '\t' {
        var convert := if initialWhitespace then SPACES_PER_INITIAL_TAB else tab;
        line := line + Spaces(convert - |line| % convert);
      } else {
        line := line + [c.value];
        if c.value != ' ' {
          initialWhitespace := false;
        }
      }
    }
    ok := line != "";
  }

  /** Takes the other half of a line end, and puts back anything else. */
  method SkipNext(input: InputStream, other: char)
    requires input.Valid()
    modifies input
    ensures input.Valid() && input.Remaining() == SkipChar(old(input.Remaining()), other)
  {
    ghost var before := input.Remaining();
    var c := input.Get();
    if c.Some? && c.value != other {
      input.Unget();
      assert input.Remaining() == before;
    }
  }

  method Read(input: InputStream, tab: nat) returns (lines: seq<string>)
    requires input.Valid() && tab > 0
    modifies input
    ensures lines == Lines(old(input.Remaining()), tab)
  {
    lines := [];
    ghost var s := input.Remaining();
    while true
      invariant input.Valid() && lines + Lines(input.Remaining(), tab) == Lines(s, tab)
      decreases |input.Remaining()|
    {
      ghost var rest := input.Remaining();
      var line, ok := GetLine(input, tab);
      if !ok {
        assert lines + [] == lines;
        return;
      }
      assert lines + ([line] + Lines(input.Remaining(), tab)) == lines + [line] + Lines(input.Remaining(), tab);
      lines := lines + [line];
    }
  }

  predicate EndsNoLine(c: char) { c != '\r' && c != '\n' }

  predicate OneLine(l: string) { forall c <- l :: EndsNoLine(c) }

  lemma OneLineTail(l: string)
    requires l != "" && OneLine(l)
    ensures EndsNoLine(l[0]) && OneLine(l[1..])
  {
    assert forall c <- l[1..] :: c in l;
  }

  predicate IsLineEnd(e: string) { e == "\n" || e == "\r" || e == "\r\n" || e == "\n\r" }

  /** The line with its tabs expanded. */
  function Expand(l: string, tab: nat): string
    requires tab > 0
  {
    LineFrom("", true, l, tab).line
  }

  lemma {:induction false} LineThenEnd(line: string, initial: bool, l: string, e: string, rest: string, tab: nat)
    requires tab > 0 && OneLine(l) && IsLineEnd(e)
    requires |e| == 1 && rest != "" ==> rest[0] != (if e == "\n" then '\r' else '\n')
    ensures LineFrom(line, initial, l + e + rest, tab) == Got(LineFrom(line, initial, l, tab).line, rest, true)
    decreases |l|
  {
    var s := l + e + rest;
    if l == "" {
      assert s == e + rest && s[0] == e[0] && s[1..] == e[1..] + rest;
      if |e| == 2 {
        assert s[1..][0] == e[1] && s[1..][1..] == rest;
      } else {
        assert s[1..] == rest;
      }
    } else {
      OneLineTail(l);
      assert s[0] == l[0] && s[1..] == l[1..] + e + rest;
      var next := if l[0] == '\t' then line + TabFill(|line|, initial, tab) else line + [l[0]];
      LineThenEnd(next, if l[0] == '\t' then initial else initial && l[0] == ' ', l[1..], e, rest, tab);
    }
  }

  /** A line and the line end it is written with. */
  datatype Ended = Ended(text: string, end: string)

  function Written(ls: seq<Ended>): string {
    if ls == [] then "" else ls[0].text + ls[0].end + Written(ls[1..])
  }

  /** The lines with their tabs expanded; an empty last line is none. */
  function Expanded(ls: seq<Ended>, last: string, tab: nat): seq<string>
    requires tab > 0
  {
    if ls != [] then [Expand(ls[0].text, tab)] + Expanded(ls[1..], last, tab)
    else if last == "" then []
    else [Expand(last, tab)]
  }

  predicate EachEnded(ls: seq<Ended>) { forall l <- ls :: OneLine(l.text) && IsLineEnd(l.end) }

  /** A line end of one character and the line end of an empty line after it do not read as one. */
  predicate Apart(a: Ended, b: Ended) {
    |a.end| == 1 && b.text == "" && b.end != "" ==> b.end[0] == a.end[0]
  }

  predicate NoneRunTogether(ls: seq<Ended>) { forall i :: 0 < i < |ls| ==> Apart(ls[i - 1], ls[i]) }

  /**
    Lines written with the four line ends, in any mix, are read back as the same
    lines, tabs expanded, and so is an unfinished line at the end of the text.
   */
  lemma {:induction false} LineEndsDoNotMatter(ls: seq<Ended>, last: string, tab: nat)
    requires tab > 0 && EachEnded(ls) && NoneRunTogether(ls) && OneLine(last)
    ensures Lines(Written(ls) + last, tab) == Expanded(ls, last, tab)
  {
    hide LineFrom, IsLineEnd, OneLine, Apart;
    if ls == [] {
      LastLine(last, tab);
    } else {
      assert forall x <- ls[1..] :: x in ls;
      assert forall i :: 0 < i < |ls[1..]| ==> ls[1..][i - 1] == ls[i] && ls[1..][i] == ls[i + 1];
      FirstLine(ls, last, tab);
      LineEndsDoNotMatter(ls[1..], last, tab);
    }
  }

  lemma LastLine(last: string, tab: nat)
    requires tab > 0 && OneLine(last)
    ensures Lines(Written([]) + last, tab) == Expanded([], last, tab)
  {
    LineAtEnd("", true, last, tab);
    assert "" + last == last;
  }

  lemma FirstLine(ls: seq<Ended>, last: string, tab: nat)
    requires tab > 0 && ls != [] && EachEnded(ls) && NoneRunTogether(ls) && OneLine(last)
    ensures Lines(Written(ls) + last, tab) == [Expand(ls[0].text, tab)] + Lines(Written(ls[1..]) + last, tab)
  {
    hide OneLine, IsLineEnd, Apart, LineFrom;
    var l, rest := ls[0], Written(ls[1..]) + last;
    assert l in ls && Written(ls) + last == l.text + l.end + rest;
    StartsApart(ls, last);
    LineThenEnd("", true, l.text, l.end, rest, tab);
  }

  lemma {:induction false} LineAtEnd(line: string, initial: bool, l: string, tab: nat)
    requires tab > 0 && OneLine(l)
    ensures var g := LineFrom(line, initial, l, tab); g == Got(g.line, "", g.line != "")
    ensures line != "" || l != "" <==> LineFrom(line, initial, l, tab).line != ""
    decreases |l|
  {
    if l != "" {
      OneLineTail(l);
      var add := if l[0] == '\t' then TabFill(|line|, initial, tab) else [l[0]];
      LineAtEnd(line + add, if l[0] == '\t' then initial else initial && l[0] == ' ', l[1..], tab);
    }
  }

  /** What follows a one-character line end does not begin with its other half. */
  lemma StartsApart(ls: seq<Ended>, last: string)
    requires ls != [] && EachEnded(ls) && NoneRunTogether(ls) && OneLine(last)
    ensures var rest, e := Written(ls[1..]) + last, ls[0].end;
            |e| == 1 && rest != "" ==> rest[0] != (if e == "\n" then '\r' else '\n')
  {
    var l := ls[0];
    assert l in ls;
    if |ls| == 1 {
      assert last != "" ==> last[0] in last;
    } else {
      var next := ls[1];
      assert next in ls && Apart(l, next) && ls[1..][0] == next;
      assert next.text != "" ==> next.text[0] in next.text;
    }
  }

  /** Where the first line of a text ends. */
  function LineLength(s: string): (n: nat)
    ensures n <= |s| && OneLine(s[..n]) && (n < |s| ==> !EndsNoLine(s[n]))
  {
    if s == "" || !EndsNoLine(s[0]) then 0
    else
      var n := LineLength(s[1..]);
      assert s[..n + 1] == [s[0]] + s[1..][..n];
      n + 1
  }

  /** Every text is lines written with line ends that do not run together, and an unfinished line, perhaps empty. */
  lemma {:induction false} SplitText(s: string) returns (ls: seq<Ended>, last: string)
    ensures s == Written(ls) + last && EachEnded(ls) && NoneRunTogether(ls) && OneLine(last)
    decreases |s|
  {
    hide OneLine, IsLineEnd, LineLength, Apart, Written;
    if LineLength(s) == |s| {
      ls, last := [], s;
      NothingWritten(s);
    } else {
      var l := FirstEnded(s);
      var rest := s[|l.text| + |l.end|..];
      ls, last := SplitText(rest);
      PutFirst(l, ls, last);
      ls := [l] + ls;
    }
  }

  lemma NothingWritten(s: string)
    requires LineLength(s) == |s|
    ensures s == Written([]) + s && OneLine(s)
  {
    assert s[..|s|] == s;
  }

  /** The first line of a text and its line end, the longest there. */
  lemma FirstEnded(s: string) returns (l: Ended)
    requires LineLength(s) < |s|
    ensures OneLine(l.text) && IsLineEnd(l.end) && 0 < |l.end| && |l.text| + |l.end| <= |s|
    ensures var rest := s[|l.text| + |l.end|..];
            && s == l.text + l.end + rest
            && (|l.end| == 1 && rest != "" ==> rest[0] != (if l.end == "\n" then '\r' else '\n'))
  {
    var n := LineLength(s);
    var other := if s[n] == '\r' then '\n' else '\r';
    var k := if n + 1 < |s| && s[n + 1] == other then n + 2 else n + 1;
    l := Ended(s[..n], s[n..k]);
    assert s[n..k] == if k == n + 2 then [s[n], s[n + 1]] else [s[n]];
  }

  lemma PutFirst(l: Ended, ls: seq<Ended>, last: string)
    requires OneLine(l.text) && IsLineEnd(l.end) && EachEnded(ls) && NoneRunTogether(ls)
    requires var rest := Written(ls) + last;
             |l.end| == 1 && rest != "" ==> rest[0] != (if l.end == "\n" then '\r' else '\n')
    ensures EachEnded([l] + ls) && NoneRunTogether([l] + ls)
    ensures Written([l] + ls) + last == l.text + l.end + (Written(ls) + last)
  {
    var all := [l] + ls;
    assert all[1..] == ls;
    forall i | 0 < i < |all| ensures Apart(all[i - 1], all[i]) {
      if i == 1 {
        assert ls[0] in ls;
      } else {
        assert Apart(ls[i - 2], ls[i - 1]);
      }
    }
  }

  /** So the lines read from any text are those it is written from in this way. */
  lemma EveryTextIsRead(s: string, tab: nat) returns (ls: seq<Ended>, last: string)
    requires tab > 0
    ensures s == Written(ls) + last && EachEnded(ls) && NoneRunTogether(ls) && OneLine(last)
    ensures Lines(s, tab) == Expanded(ls, last, tab)
  {
    ls, last := SplitText(s);
    LineEndsDoNotMatter(ls, last, tab);
  }

  /** Two line ends that do run together are one: the proviso is needed. */
  lemma RunTogether()
    ensures Lines(Written([Ended("", "\r"), Ended("", "\n")]), 4) == [""]
  {
    var ls := [Ended("", "\r"), Ended("", "\n")];
    assert ls[1..][1..] == [];
    assert Written(ls[1..]) == "\n";
    assert Written(ls) == "\r\n";
    assert "\r\n"[1..] == "\n" && "\n"[1..] == "";
  }

  /** The line is begun with what was there, gets no tab, and is unchanged when there is none. */
  lemma {:induction false} ExpandFrom(line: string, initial: bool, l: string, tab: nat)
    requires tab > 0 && OneLine(l)
    ensures var r := LineFrom(line, initial, l, tab).line;
            && line <= r && ('\t' !in line ==> '\t' !in r) && ('\t' !in l ==> r == line + l)
    decreases |l|
  {
    if l == "" {
      assert line + l == line;
    } else {
      OneLineTail(l);
      var add := if l[0] == '\t' then TabFill(|line|, initial, tab) else [l[0]];
      ExpandFrom(line + add, if l[0] == '\t' then initial else initial && l[0] == ' ', l[1..], tab);
      assert line <= line + add;
      assert l[0] != '\t' ==> line + add + l[1..] == line + l;
    }
  }

  lemma ExpandStep(line: string, initial: bool, l: string, tab: nat) returns (add: string, next: bool)
    requires tab > 0 && l != "" && OneLine(l)
    ensures OneLine(l[1..]) && LineFrom(line, initial, l, tab) == LineFrom(line + add, next, l[1..], tab)
    ensures if l[0] == '\t' then forall c <- add :: c == ' ' else add == [l[0]]
  {
    OneLineTail(l);
    add := if l[0] == '\t' then TabFill(|line|, initial, tab) else [l[0]];
    next := if l[0] == '\t' then initial else initial && l[0] == ' ';
  }

  lemma {:induction false} ExpandKeepsVisible(line: string, initial: bool, l: string, tab: nat)
    requires tab > 0 && OneLine(l)
    ensures Visible(LineFrom(line, initial, l, tab).line) == Visible(line) + Visible(l)
    decreases |l|
  {
    if l == "" {
      assert Visible(line) + "" == Visible(line);
    } else {
      hide LineFrom, Visible;
      var add, next := ExpandStep(line, initial, l, tab);
      ExpandKeepsVisible(line + add, next, l[1..], tab);
      VisibleConcat(line, add);
      VisibleAdd(l, add);
    }
  }

  /** The characters of a text other than spaces and tabs. */
  function Visible(s: string): string {
    if s == "" then "" else (if s[0] == ' ' || s[0] == '\t' then "" else [s[0]]) + Visible(s[1..])
  }

  lemma {:induction false} VisibleConcat(a: string, b: string)
    ensures Visible(a + b) == Visible(a) + Visible(b)
  {
    if a == "" {
      assert a + b == b;
    } else {
      assert (a + b)[1..] == a[1..] + b;
      VisibleConcat(a[1..], b);
    }
  }

  lemma VisibleAdd(l: string, add: string)
    requires l != "" && (if l[0] == '\t' then forall c <- add :: c == ' ' else add == [l[0]])
    ensures Visible(l) == Visible(add) + Visible(l[1..])
  {
    if l[0] == '\t' {
      SpacesAreInvisible(add);
    } else {
      assert add[1..] == "";
    }
  }

  lemma {:induction false} SpacesAreInvisible(s: string)
    requires forall c <- s :: c == ' '
    ensures Visible(s) == ""
  {
    if s != "" {
      assert s[0] in s && forall c <- s[1..] :: c in s;
      SpacesAreInvisible(s[1..]);
    }
  }

  /**
    What expansion does to a line: it removes the tabs, keeps every visible
    character in order and leaves tab-free lines alone.
   */
  lemma ExpandKeepsText(l: string, tab: nat)
    requires tab > 0 && OneLine(l)
    ensures '\t' !in Expand(l, tab) && Visible(Expand(l, tab)) == Visible(l)
    ensures '\t' !in l ==> Expand(l, tab) == l
  {
    ExpandFrom("", true, l, tab);
    ExpandKeepsVisible("", true, l, tab);
    assert "" + l == l && "" + Visible(l) == Visible(l);
  }

  /** Only spaces and tabs so far. */
  predicate Blank(a: string) { forall c <- a :: IsBlank(c) }

  predicate IsBlank(c: char) { c == ' ' || c == '\t' }

  lemma {:induction false} ReadOn(line: string, initial: bool, a: string, t: string, tab: nat)
    requires tab > 0 && OneLine(a)
    ensures var l := LineFrom(line, initial, a, tab).line;
            LineFrom(line, initial, a + t, tab) == LineFrom(l, initial && Blank(a), t, tab)
    decreases |a|
  {
    if a == "" {
      assert a + t == t;
    } else {
      OneLineTail(a);
      BlankTail(a);
      assert (a + t)[0] == a[0] && (a + t)[1..] == a[1..] + t;
      var add := if a[0] == '\t' then TabFill(|line|, initial, tab) else [a[0]];
      ReadOn(line + add, if a[0] == '\t' then initial else initial && a[0] == ' ', a[1..], t, tab);
    }
  }

  lemma BlankTail(a: string)
    requires a != ""
    ensures Blank(a) <==> IsBlank(a[0]) && Blank(a[1..])
  {
    assert a[0] in a && forall c <- a[1..] :: c in a;
    assert forall c <- a :: c == a[0] || c in a[1..];
  }

  /**
    A tab goes to the next multiple of four while there are only blanks before
    it on the line, and else to the next multiple of the tab width.
   */
  lemma TabColumn(a: string, tab: nat)
    requires tab > 0 && OneLine(a)
    ensures var column, width := |Expand(a, tab)|, if Blank(a) then 4 else tab;
            Expand(a + "\t", tab) == Expand(a, tab) + seq(width - column % width, _ => ' ')
  {
    ReadOn("", true, a, "\t", tab);
    assert "\t"[1..] == "";
  }

  /** Any other character of a line takes one column. */
  lemma OtherColumn(a: string, c: char, tab: nat)
    requires tab > 0 && OneLine(a) && EndsNoLine(c) && c != '\t'
    ensures Expand("", tab) == "" && Expand(a + [c], tab) == Expand(a, tab) + [c]
  {
    ReadOn("", true, a, [c], tab);
    assert [c][1..] == "";
  }

  /** The next tab stop in the indentation after `n` spaces. */
  function TabStop(n: nat): (stop: nat)
    ensures stop % 4 == 0 && n < stop <= n + 4
  {
    n + (SPACES_PER_INITIAL_TAB - n % SPACES_PER_INITIAL_TAB)
  }

  lemma SpacesJoin(m: nat, n: nat)
    ensures Spaces(m) + Spaces(n) == Spaces(m + n) && Spaces(0) == ""
  {
  }

  lemma TabFillsToStop(n: nat, l: string, tab: nat)
    requires tab > 0
    ensures LineFrom(Spaces(n), true, "\t" + l, tab) == LineFrom(Spaces(TabStop(n)), true, l, tab)
  {
    hide Spaces;
    SpacesJoin(n, 4 - n % 4);
    assert ("\t" + l)[1..] == l;
  }

  /** Text after a tab in the indentation stands at a multiple of four. */
  lemma IndentTabStop(n: nat, l: string, tab: nat)
    requires tab > 0 && OneLine(l)
    ensures Spaces(TabStop(n)) <= Expand(Spaces(n) + ("\t" + l), tab)
  {
    hide Spaces, LineFrom;
    IndentFrom("", n, "\t" + l, tab);
    assert "" + Spaces(n) == Spaces(n);
    TabFillsToStop(n, l, tab);
    ExpandFrom(Spaces(TabStop(n)), true, l, tab);
  }

  lemma {:induction false} IndentFrom(line: string, n: nat, t: string, tab: nat)
    requires tab > 0
    ensures LineFrom(line, true, Spaces(n) + t, tab) == LineFrom(line + Spaces(n), true, t, tab)
    decreases n
  {
    if n == 0 {
      assert Spaces(0) + t == t && line + Spaces(0) == line;
    } else {
      assert (Spaces(n) + t)[0] == ' ' && (Spaces(n) + t)[1..] == Spaces(n - 1) + t;
      IndentFrom(line + " ", n - 1, t, tab);
      assert line + " " + Spaces(n - 1) == line + Spaces(n);
      assert LineFrom(line, true, Spaces(n) + t, tab) == LineFrom(line + " ", true, Spaces(n - 1) + t, tab);
    }
  }
}
