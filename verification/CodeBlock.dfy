/** The backtracking reader for indented code blocks, and the simple rule it comes to. */
module CodeBlock {
  import opened Wrappers

  /** A line token: a blank line, a line of markup text, or anything else. */
  datatype Line = Blank | Markup(text: string) | Other

  /** A line that code begins with: four spaces, or more. */
  predicate IsCode(l: Line) {
    l.Markup? && |l.text| >= 4 && l.text[..4] == "    "
  }

  /**
    What the reader emits for the lines of a block: code without its four spaces,
    and nothing for a blank line but its end.
   */
  function Emitted(ls: seq<Line>): string {
    if ls == [] then ""
    else Emitted(ls[..|ls| - 1]) + (if IsCode(ls[|ls| - 1]) then ls[|ls| - 1].text[4..] else "") + "\n"
  }

  /** `i..j` is a run of code lines and blank lines that ends with a code line. */
  predicate CodeRun(ls: seq<Line>, i: nat, j: nat) {
    && i < j <= |ls| && IsCode(ls[j - 1])
    && forall k :: i <= k < j ==> IsCode(ls[k]) || ls[k].Blank?
  }

  /** No code line follows the blank lines, if any, at `i`. */
  ghost predicate NoRun(ls: seq<Line>, i: nat) { forall j :: !CodeRun(ls, i, j) }

  /** A block: a run that also begins with a code line and is as long as possible. */
  predicate IsBlock(ls: seq<Line>, i: nat, j: nat) {
    && CodeRun(ls, i, j) && IsCode(ls[i])
    && forall k :: j < k <= |ls| ==> !CodeRun(ls, i, k)
  }

  /** The iterator is a position in the list that the reader moves and moves back. */
  class Reader {
    const lines: seq<Line>
    var i: nat

    constructor (lines: seq<Line>, i: nat)
      ensures this.lines == lines && this.i == i
    {
      this.lines, this.i := lines, i;
    }

    /**
      Reads blank lines up to and including the next code line, or nothing: the
      iterator is back where it was when no code line follows the blanks.
     */
    method IsCodeBlockLine() returns (r: Option<string>)
      requires i < |lines|
      modifies this`i
      ensures r.None? ==> i == old(i) && NoRun(lines, i)
      ensures r.Some? ==>
        && CodeRun(lines, old(i), i)
        && (forall k :: old(i) <= k < i - 1 ==> lines[k].Blank?)
        && r.value + "\n" == Emitted(lines[old(i)..i])
      decreases |lines| - i
    {
      if lines[i].Blank? {
        i := i + 1;
        if i != |lines| {
          r := IsCodeBlockLine();
          if r.Some? {
            BlankFirst(lines, old(i), i);
            r := Some("\n" + r.value);
            return;
          }
        }
        i := i - 1;
        NoRunAfterBlank(lines, i);
      } else if lines[i].Markup? {
        var line := lines[i].text;
        if |line| >= 4 {
          var si := 0;
          while si != 4 && line[si] == ' '
            invariant 0 <= si <= 4 && forall k :: 0 <= k < si ==> line[k] == ' '
            decreases 4 - si
          {
            si := si + 1;
          }
          if si == 4 {
            assert line[..4] == "    ";
            OneCodeLine(lines, i);
            i := i + 1;
            return Some(line[4..]);
          }
        }
        NoRunFromOther(lines, i);
      } else {
        NoRunFromOther(lines, i);
      }
      r := None;
    }

    /** Reads a whole code block, or nothing. */
    method ParseCodeBlock() returns (r: Option<string>)
      requires i < |lines|
      modifies this`i
      ensures r.None? ==> i == old(i) && forall j :: !IsBlock(lines, i, j)
      ensures r.Some? ==> IsBlock(lines, old(i), i) && r.value == Emitted(lines[old(i)..i])
    {
      ghost var start := i;
      if !lines[i].Blank? {
        var contents := IsCodeBlockLine();
        if contents.Some? {
          var out := contents.value + "\n";
          while i != |lines|
            invariant start < i <= |lines| && CodeRun(lines, start, i) && IsCode(lines[start])
            invariant out == Emitted(lines[start..i])
            decreases |lines| - i
          {
            ghost var before := i;
            contents := IsCodeBlockLine();
            if contents == None {
              NoLongerRun(lines, start, i);
              return Some(out);
            }
            RunsJoin(lines, start, before, i);
            out := out + contents.value + "\n";
            assert out == Emitted(lines[start..before]) + (contents.value + "\n");
          }
          return Some(out);
        }
      }
      r := None;
    }
  }

  lemma {:induction false} EmittedConcat(a: seq<Line>, b: seq<Line>)
    ensures Emitted(a + b) == Emitted(a) + Emitted(b)
  {
    if b == [] {
      assert a + b == a;
    } else {
      assert (a + b)[..|a + b| - 1] == a + b[..|b| - 1];
      EmittedConcat(a, b[..|b| - 1]);
    }
  }

  lemma BlankFirst(ls: seq<Line>, i: nat, j: nat)
    requires i < j <= |ls| && ls[i].Blank?
    ensures Emitted(ls[i..j]) == "\n" + Emitted(ls[i + 1..j])
  {
    assert ls[i..j] == [ls[i]] + ls[i + 1..j];
    EmittedConcat([ls[i]], ls[i + 1..j]);
    assert [ls[i]][..0] == [];
    assert Emitted([ls[i]]) == "" + "" + "\n";
  }

  lemma OneCodeLine(ls: seq<Line>, i: nat)
    requires i < |ls| && IsCode(ls[i])
    ensures Emitted(ls[i..i + 1]) == ls[i].text[4..] + "\n"
  {
    assert ls[i..i + 1] == [ls[i]] && [ls[i]][..0] == [];
    assert "" + ls[i].text[4..] == ls[i].text[4..];
  }

  lemma NoRunAfterBlank(ls: seq<Line>, i: nat)
    requires i < |ls| && ls[i].Blank?
    requires i + 1 == |ls| || NoRun(ls, i + 1)
    ensures NoRun(ls, i)
  {
    forall j ensures !CodeRun(ls, i, j) {
      if CodeRun(ls, i, j) {
        assert CodeRun(ls, i + 1, j);
      }
    }
  }

  lemma NoRunFromOther(ls: seq<Line>, i: nat)
    requires i < |ls| && !ls[i].Blank? && !IsCode(ls[i])
    ensures NoRun(ls, i)
  {
  }

  lemma NoLongerRun(ls: seq<Line>, start: nat, i: nat)
    requires start < i < |ls| && NoRun(ls, i)
    ensures forall k :: i < k <= |ls| ==> !CodeRun(ls, start, k)
  {
    forall k | i < k <= |ls| ensures !CodeRun(ls, start, k) {
      if CodeRun(ls, start, k) {
        assert CodeRun(ls, i, k);
      }
    }
  }

  lemma RunsJoin(ls: seq<Line>, i: nat, j: nat, k: nat)
    requires CodeRun(ls, i, j) && CodeRun(ls, j, k)
    ensures CodeRun(ls, i, k) && Emitted(ls[i..k]) == Emitted(ls[i..j]) + Emitted(ls[j..k])
  {
    assert ls[i..k] == ls[i..j] + ls[j..k];
    EmittedConcat(ls[i..j], ls[j..k]);
  }

  /** There is at most one block at a position, and there is one exactly when a code line stands there. */
  lemma BlockExistsOnce(ls: seq<Line>, i: nat)
    requires i < |ls|
    ensures IsCode(ls[i]) <==> exists j :: IsBlock(ls, i, j)
    ensures forall j, k :: IsBlock(ls, i, j) && IsBlock(ls, i, k) ==> j == k
  {
    if IsCode(ls[i]) {
      var j := i + 1;
      for n := i + 1 to |ls| + 1
        invariant CodeRun(ls, i, j) && j <= |ls|
        invariant forall k :: j < k < n ==> !CodeRun(ls, i, k)
      {
        if CodeRun(ls, i, n) {
          j := n;
        }
      }
      assert IsBlock(ls, i, j);
    }
  }

  /** Blank lines and then a line of code: how a block goes on. */
  datatype More = More(blanks: nat, code: string)

  function Indented(code: string): Line { Markup("    " + code) }

  function LinesOf(ms: seq<More>): seq<Line> {
    if ms == [] then []
    else LinesOf(ms[..|ms| - 1]) + (seq(ms[|ms| - 1].blanks, _ => Blank) + [Indented(ms[|ms| - 1].code)])
  }

  function TextOf(ms: seq<More>): string {
    if ms == [] then ""
    else TextOf(ms[..|ms| - 1]) + (seq(ms[|ms| - 1].blanks, _ => '\n') + (ms[|ms| - 1].code + "\n"))
  }

  lemma {:induction false} BlanksEmitted(n: nat)
    ensures Emitted(seq(n, _ => Blank)) == seq(n, _ => '\n')
  {
    if n > 0 {
      var ls := seq(n, _ => Blank);
      assert ls[..n - 1] == seq(n - 1, _ => Blank);
      BlanksEmitted(n - 1);
    }
  }

  lemma CodeEmitted(code: string)
    ensures IsCode(Indented(code)) && Emitted([Indented(code)]) == code + "\n"
  {
    var l := Indented(code);
    assert l.text[..4] == "    " && l.text[4..] == code;
    assert [l][..0] == [];
    assert "" + code + "\n" == code + "\n";
  }

  lemma {:induction false} LinesEmitted(ms: seq<More>)
    ensures Emitted(LinesOf(ms)) == TextOf(ms)
    ensures forall l <- LinesOf(ms) :: IsCode(l) || l.Blank?
    ensures ms != [] ==> LinesOf(ms) != [] && IsCode(LinesOf(ms)[|LinesOf(ms)| - 1])
  {
    if ms != [] {
      var m := ms[|ms| - 1];
      LinesEmitted(ms[..|ms| - 1]);
      hide Emitted;
      BlanksEmitted(m.blanks);
      CodeEmitted(m.code);
      EmittedConcat(seq(m.blanks, _ => Blank), [Indented(m.code)]);
      EmittedConcat(LinesOf(ms[..|ms| - 1]), seq(m.blanks, _ => Blank) + [Indented(m.code)]);
    }
  }

  /** No block goes on over blank lines to these: there are none, or the first is neither blank nor code. */
  predicate GoesNoFurther(after: seq<Line>) {
    after == [] || (!after[0].Blank? && !IsCode(after[0]))
  }

  /**
    The block that starts with a line of code goes on over blank lines as long as
    code follows; its text is its code lines less four spaces, with an empty line
    for each blank one.
   */
  lemma BlockIs(first: string, ms: seq<More>, blanks: nat, after: seq<Line>)
    requires GoesNoFurther(after)
    ensures var block := LinesOf([More(0, first)] + ms);
            var ls := block + (seq(blanks, _ => Blank) + after);
            && ls[0] == Markup("    " + first)
            && IsBlock(ls, 0, |block|) && Emitted(ls[..|block|]) == TextOf([More(0, first)] + ms)
  {
    var all := [More(0, first)] + ms;
    var block := LinesOf(all);
    var ls := block + (seq(blanks, _ => Blank) + after);
    LinesEmitted(all);
    FirstLineIs(first, ms);
    CodeEmitted(first);
    assert ls[..|block|] == block;
    var j := |block|;
    forall k | 0 <= k < j ensures IsCode(ls[k]) || ls[k].Blank? {
      assert ls[k] == block[k] && block[k] in block;
    }
    forall k | j < k <= |ls| ensures !CodeRun(ls, 0, k) {
      if k - 1 < j + blanks {
        assert ls[k - 1] == Blank;
      } else {
        assert ls[j + blanks] == after[0];
      }
    }
  }

  lemma {:induction false} FirstLineIs(first: string, ms: seq<More>)
    ensures var block := LinesOf([More(0, first)] + ms); block != [] && block[0] == Markup("    " + first)
    decreases |ms|
  {
    var all := [More(0, first)] + ms;
    if ms == [] {
      assert all[..0] == [];
      assert seq(0, _ => Blank) + [Indented(first)] == [Indented(first)];
    } else {
      assert all[..|all| - 1] == [More(0, first)] + ms[..|ms| - 1];
      FirstLineIs(first, ms[..|ms| - 1]);
    }
  }
}
