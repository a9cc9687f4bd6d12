/** The content of a block: the lines the formatter writes for it, what the scan makes of them, and exactly
    which content comes back. */
module AclContent {
  import opened Base
  import opened Text
  import opened AclDocument

  // ---------------------------------------------------------------- lines and their text

  function JoinLines(lines: seq<string>): string {
    if lines == [] then [] else if |lines| == 1 then lines[0]
      else JoinLines(lines[..|lines| - 1]) + "\n" + lines[|lines| - 1]
  }

  lemma {:induction false} JoinLast(lines: seq<string>, line: string)
    ensures JoinLines(lines + [line]) == if lines == [] then line else JoinLines(lines) + "\n" + line
  {
    assert (lines + [line])[..|lines|] == lines;
  }

  lemma {:induction false} JoinNonEmpty(lines: seq<string>)
    requires lines != [] ==> lines[0] != []
    ensures JoinLines(lines) == [] <==> lines == []
  {
    if |lines| > 1 {
      assert |JoinLines(lines)| >= 1;
    }
  }

  /** The pieces between the line breaks of a text. */
  function Split(c: string): (r: seq<string>)
    ensures r != [] && NoBreaks(r) && JoinLines(r) == c
  {
    if c == [] then [[]]
    else
      var init, last := Split(c[..|c| - 1]), c[|c| - 1];
      assert c == c[..|c| - 1] + [last];
      if last == '\n' then
        JoinLast(init, []);
        assert JoinLines(init) + "\n" + [] == c;
        init + [[]]
      else
        JoinExtend(init, last);
        init[|init| - 1 := init[|init| - 1] + [last]]
  }

  lemma {:induction false} JoinExtend(lines: seq<string>, x: char)
    requires lines != []
    ensures JoinLines(lines[|lines| - 1 := lines[|lines| - 1] + [x]]) == JoinLines(lines) + [x]
  {
    var k := |lines| - 1;
    var longer := lines[k := lines[k] + [x]];
    assert longer[..k] == lines[..k];
    if k > 0 {
      var front := JoinLines(lines[..k]) + "\n";
      assert front + (lines[k] + [x]) == front + lines[k] + [x];
    }
  }

  /** The lines the formatter writes for a content: it adds a final break only where there is none. */
  function WrittenLines(c: string): (r: seq<string>)
    ensures NoBreaks(r)
  {
    var pieces := Split(c);
    if c == [] || c[|c| - 1] == '\n' then pieces[..|pieces| - 1] else pieces
  }

  predicate NoBreaks(lines: seq<string>) {
    forall i :: 0 <= i < |lines| ==> '\n' !in lines[i]
  }

  lemma {:induction false} JoinInjective(a: seq<string>, b: seq<string>)
    requires a != [] && b != [] && NoBreaks(a) && NoBreaks(b) && JoinLines(a) == JoinLines(b)
    ensures a == b
    decreases |a|
  {
    if |a| == 1 && |b| == 1 {
      assert a == [a[0]] && b == [b[0]];
    } else if |a| == 1 {
      JoinHasBreak(b);
      assert false;
    } else if |b| == 1 {
      JoinHasBreak(a);
      assert false;
    } else {
      var x, y := a[..|a| - 1], b[..|b| - 1];
      var p, q := a[|a| - 1], b[|b| - 1];
      SameLastLine(JoinLines(x), p, JoinLines(y), q);
      JoinInjective(x, y);
      assert a == x + [p] && b == y + [q];
    }
  }

  lemma {:induction false} JoinHasBreak(a: seq<string>)
    requires |a| > 1
    ensures '\n' in JoinLines(a)
  {
    var x := JoinLines(a[..|a| - 1]);
    assert JoinLines(a)[|x|] == '\n';
  }

  lemma {:induction false} SameLastLine(x: string, p: string, y: string, q: string)
    requires x + "\n" + p == y + "\n" + q && '\n' !in p && '\n' !in q
    ensures x == y && p == q
  {
    var s := x + "\n" + p;
    assert s[|x|] == '\n' && s[|y|] == '\n';
    if |x| < |y| {
      assert false;
    } else if |y| < |x| {
      assert false;
    }
    assert s[..|x|] == x && s[..|y|] == y && s[|x| + 1..] == p && s[|y| + 1..] == q;
  }

  // ---------------------------------------------------------------- what the scan makes of lines

  /** A line that any free-text section keeps as it is. */
  predicate FreeText(text: string) {
    Trimmed(text) && text[0] != '#' && Cut(text).word != "change" && text != "end"
  }

  predicate IsComment(line: string) {
    Trim(line) != [] && Trim(line)[0] == '#'
  }

  /** Lines that end the block or stop the scan. */
  predicate IsStop(line: string) {
    !IsComment(line) && (Trim(line) == "end" || Cut(Trim(line)).word == "change")
  }

  /** The lines a block keeps: trimmed, without comments. */
  function Kept(lines: seq<string>): seq<string> {
    if lines == [] then []
    else
      var k := |lines| - 1;
      Kept(lines[..k]) + if IsComment(lines[k]) then [] else [Trim(lines[k])]
  }

  /** What they amount to: a blank line in front counts twice. */
  function Shown(kept: seq<string>): seq<string> {
    if kept != [] && kept[0] == [] then [[]] + kept else kept
  }

  lemma {:induction false} ShownNonEmpty(kept: seq<string>)
    ensures JoinLines(Shown(kept)) == [] <==> kept == []
  {
    var shown := Shown(kept);
    if kept != [] && kept[0] != [] {
      JoinNonEmpty(kept);
    } else if kept != [] {
      assert |shown| > 1;
    }
  }

  lemma {:induction false} ShownLast(kept: seq<string>, line: string)
    ensures JoinLines(Shown(kept + [line]))
            == if line == [] then JoinLines(Shown(kept)) + "\n"
               else if kept == [] then line else JoinLines(Shown(kept)) + "\n" + line
  {
    if kept == [] {
      assert kept + [line] == [line];
      assert [[]] + [line] == [[], line] && [[], line][..1] == [[]];
    } else {
      assert (kept + [line])[0] == kept[0];
      assert Shown(kept + [line]) == Shown(kept) + [line];
      JoinLast(Shown(kept), line);
    }
    if line == [] {
      assert JoinLines(Shown(kept)) + "\n" + line == JoinLines(Shown(kept)) + "\n";
    }
  }

  /** One line inside an open block. */
  lemma {:induction false} LineInBlock(st: State, b: ParsedBlock, line: string)
    requires st.block == Some(b) && !IsStop(line)
    ensures Step(st, line)
            == Some(if IsComment(line) then st
                    else if Trim(line) == [] then st.(block := Some(b.(content := b.content + "\n")))
                    else st.(block := Some(AddContent(b, Trim(line)))))
  {
  }

  lemma {:induction false} ContentStep(st: State, b: ParsedBlock, kept: seq<string>, line: string)
    requires st.block == Some(b) && b.content == JoinLines(Shown(kept)) && !IsStop(line)
    ensures Step(st, line)
            == Some(if IsComment(line) then st
                    else st.(block := Some(b.(content := JoinLines(Shown(kept + [Trim(line)]))))))
  {
    LineInBlock(st, b, line);
    ShownNonEmpty(kept);
    ShownLast(kept, Trim(line));
    assert [] + Trim(line) == Trim(line);
  }

  /** The state with an open block that has kept these lines. */
  function Holding(st: State, b: ParsedBlock, kept: seq<string>): State {
    st.(block := Some(b.(content := JoinLines(Shown(kept)))))
  }

  lemma {:induction false} HoldingStep(st: State, b: ParsedBlock, lines: seq<string>)
    requires lines != [] && !IsStop(lines[|lines| - 1])
    ensures Step(Holding(st, b, Kept(lines[..|lines| - 1])), lines[|lines| - 1]) == Some(Holding(st, b, Kept(lines)))
  {
    var init, last := lines[..|lines| - 1], lines[|lines| - 1];
    var sofar := b.(content := JoinLines(Shown(Kept(init))));
    ContentStep(Holding(st, b, Kept(init)), sofar, Kept(init), last);
    KeptLast(lines);
  }

  /** The content of a block, in closed form. */
  lemma {:induction false} ContentIs(st: State, b: ParsedBlock, lines: seq<string>)
    requires st.block == Some(b) && b.content == [] && forall i :: 0 <= i < |lines| ==> !IsStop(lines[i])
    ensures Leads(st, lines, Holding(st, b, Kept(lines)))
    decreases |lines|
  {
    if lines == [] {
      LeadsNowhere(st);
    } else {
      var init, last := lines[..|lines| - 1], lines[|lines| - 1];
      ContentIs(st, b, init);
      HoldingStep(st, b, lines);
      LeadsOne(Holding(st, b, Kept(init)), last, Holding(st, b, Kept(lines)));
      LeadsOn(st, init, Holding(st, b, Kept(init)), [last], Holding(st, b, Kept(lines)));
      assert init + [last] == lines;
    }
  }

  lemma {:induction false} KeptLast(lines: seq<string>)
    requires lines != []
    ensures var k := |lines| - 1;
            Kept(lines) == if IsComment(lines[k]) then Kept(lines[..k]) else Kept(lines[..k]) + [Trim(lines[k])]
  {
  }

  // ---------------------------------------------------------------- lines that stop

  lemma {:induction false} StepKeepsBlocks(st: State, line: string)
    ensures Step(st, line).Some? ==> |Step(st, line).value.blocks| >= |st.blocks|
  {
    var text := Trim(line);
    if Dispatch(st, text, Cut(text)).Some? {
      DispatchBlocks(st, text, Cut(text));
    }
  }

  lemma {:induction false} DispatchBlocks(st: State, text: string, line: Line)
    requires Dispatch(st, text, line).Some?
    ensures Dispatch(st, text, line).value.blocks == st.blocks
  {
  }

  lemma {:induction false} RunKeepsBlocks(st: State, lines: seq<string>)
    ensures Run(st, lines).Some? ==> |Run(st, lines).value.blocks| >= |st.blocks|
    decreases |lines|
  {
    if lines != [] {
      var init, last := lines[..|lines| - 1], lines[|lines| - 1];
      assert init + [last] == lines;
      RunAllConcat(Step, st, init, [last]);
      RunKeepsBlocks(st, init);
      if Run(st, init).Some? {
        RunAllOne(Step, Run(st, init).value, last);
        StepKeepsBlocks(Run(st, init).value, last);
      }
    }
  }

  /** A stop line inside a block closes it or fails; either way the block is not open with what it held. */
  lemma {:induction false} StopEnds(st: State, b: ParsedBlock, lines: seq<string>, i: nat, to: State)
    requires st.block == Some(b) && b.content == [] && st.inChange && i < |lines| && IsStop(lines[i])
    requires forall j :: 0 <= j < i ==> !IsStop(lines[j])
    requires Leads(st, lines, to)
    ensures |to.blocks| > |st.blocks|
  {
    var front, rest := lines[..i], lines[i + 1..];
    ContentIs(st, b, front);
    assert lines == front + ([lines[i]] + rest);
    RunAllConcat(Step, st, front, [lines[i]] + rest);
    StopThen(Holding(st, b, Kept(front)), lines[i], rest, to);
  }

  lemma {:induction false} StopThen(st: State, line: string, rest: seq<string>, to: State)
    requires st.block.Some? && st.inChange && IsStop(line) && Leads(st, [line] + rest, to)
    ensures |to.blocks| > |st.blocks|
  {
    RunAllConcat(Step, st, [line], rest);
    RunAllOne(Step, st, line);
    StopStep(st, line);
    RunKeepsBlocks(Close(st), rest);
  }

  lemma {:induction false} StopStep(st: State, line: string)
    requires st.block.Some? && st.inChange && IsStop(line)
    ensures Step(st, line).Some? ==> Step(st, line) == Some(Close(st))
  {
  }

  // ---------------------------------------------------------------- the exact condition

  lemma {:induction false} KeptMembers(lines: seq<string>)
    ensures |Kept(lines)| <= |lines|
    ensures forall i :: 0 <= i < |Kept(lines)| ==>
              !IsComment(Kept(lines)[i]) && Trim(Kept(lines)[i]) == Kept(lines)[i]
    ensures NoBreaks(lines) ==> NoBreaks(Kept(lines))
  {
    if lines != [] {
      var k := |lines| - 1;
      KeptMembers(lines[..k]);
      TrimResult(lines[k]);
      if NoBreaks(lines) {
        TrimMembers(lines[k], '\n');
      }
    }
  }

  lemma {:induction false} KeptAll(lines: seq<string>)
    requires forall i :: 0 <= i < |lines| ==> !IsComment(lines[i]) && Trim(lines[i]) == lines[i]
    ensures Kept(lines) == lines
  {
    if lines != [] {
      var k := |lines| - 1;
      KeptAll(lines[..k]);
      assert lines == lines[..k] + [lines[k]];
    }
  }

  lemma {:induction false} ShownIsLines(lines: seq<string>)
    requires lines != [] && Shown(Kept(lines)) == lines
    ensures Kept(lines) == lines && lines[0] != []
  {
    KeptMembers(lines);
    assert Trim([]) == [];
    forall i | 0 <= i < |lines| ensures !IsComment(lines[i]) && Trim(lines[i]) == lines[i] {
      assert lines[i] == Shown(Kept(lines))[i];
    }
    KeptAll(lines);
  }

  lemma {:induction false} KeptIsFree(lines: seq<string>, i: nat)
    requires Kept(lines) == lines && i < |lines| && !IsStop(lines[i])
    ensures lines[i] == [] || FreeText(lines[i])
  {
    KeptMembers(lines);
    TrimResult(lines[i]);
  }

  lemma {:induction false} FreeIsKept(line: string)
    requires line == [] || FreeText(line)
    ensures !IsComment(line) && !IsStop(line) && Trim(line) == line
  {
    if line != [] {
      TrimmedTrims(line);
    }
  }

  predicate BreaksOnly(c: string) {
    forall i :: 0 <= i < |c| ==> c[i] == '\n'
  }

  /** Lines that come back as they are: blank ones only behind others. */
  predicate FreeLines(lines: seq<string>) {
    lines != [] && lines[0] != [] && forall i :: 0 <= i < |lines| ==> lines[i] == [] || FreeText(lines[i])
  }

  /** Content that comes back: breaks only, or free lines without a break at the end. */
  predicate ContentOk(c: string) {
    BreaksOnly(c) || (c[|c| - 1] != '\n' && FreeLines(Split(c)))
  }

  lemma {:induction false} SplitBreaks(c: string)
    requires BreaksOnly(c)
    ensures forall i :: 0 <= i < |Split(c)| ==> Split(c)[i] == []
  {
    if c != [] {
      SplitBreaks(c[..|c| - 1]);
    }
  }

  lemma {:induction false} JoinBlanks(lines: seq<string>)
    requires forall i :: 0 <= i < |lines| ==> lines[i] == []
    ensures BreaksOnly(JoinLines(lines))
  {
    if |lines| > 1 {
      JoinBlanks(lines[..|lines| - 1]);
    }
  }

  /** Splitting leaves a blank piece at the end exactly behind a final break. */
  lemma {:induction false} SplitEnd(c: string)
    requires c != []
    ensures var s := Split(c); s[|s| - 1] == [] <==> c[|c| - 1] == '\n'
    ensures var s := Split(c); c[|c| - 1] == '\n' ==> |s| > 1 && s == s[..|s| - 1] + [[]]
  {
    var s := Split(c);
    if c[|c| - 1] == '\n' {
      assert s == Split(c[..|c| - 1]) + [[]];
    }
  }

  lemma {:induction false} BlanksShown(lines: seq<string>)
    requires lines != [] && forall i :: 0 <= i < |lines| ==> lines[i] == []
    ensures Shown(Kept(lines)) == lines + [[]]
  {
    forall i | 0 <= i < |lines| ensures !IsComment(lines[i]) && Trim(lines[i]) == lines[i] {
      FreeIsKept(lines[i]);
    }
    KeptAll(lines);
  }

  /** What is written for content that satisfies the condition amounts to that content. */
  lemma {:induction false} WrittenIsShown(c: string)
    requires ContentOk(c)
    ensures JoinLines(Shown(Kept(WrittenLines(c)))) == c
    ensures forall i :: 0 <= i < |WrittenLines(c)| ==> !IsStop(WrittenLines(c)[i])
  {
    var lines := WrittenLines(c);
    if c != [] {
      SplitEnd(c);
      if BreaksOnly(c) {
        SplitBreaks(c);
        BlanksShown(lines);
      } else {
        forall i | 0 <= i < |lines| ensures !IsComment(lines[i]) && Trim(lines[i]) == lines[i] {
          FreeIsKept(lines[i]);
        }
        KeptAll(lines);
      }
      forall i | 0 <= i < |lines| ensures !IsStop(lines[i]) {
        FreeIsKept(lines[i]);
      }
    } else {
      assert Split(c) == [[]] && lines == [];
    }
  }

  lemma {:induction false} ContentReads(st: State, b: ParsedBlock, c: string)
    requires st.block == Some(b) && b.content == [] && ContentOk(c)
    ensures Leads(st, WrittenLines(c), st.(block := Some(b.(content := c))))
  {
    WrittenIsShown(c);
    ContentIs(st, b, WrittenLines(c));
  }

  /** If lines amount to themselves and one more blank line, they are all blank. */
  lemma {:induction false} ShownWithBlank(lines: seq<string>, i: nat)
    requires Shown(Kept(lines)) == lines + [[]] && i < |lines|
    ensures lines[i] == []
  {
    KeptMembers(lines);
    var kept := Kept(lines);
    assert |Shown(kept)| == |lines| + 1;
    assert Shown(kept) == [[]] + kept && |kept| == |lines|;
    KeptSameLength(lines);
    if i > 0 {
      ShownWithBlank(lines, i - 1);
      assert lines[i] == (lines + [[]])[i] == kept[i - 1] == Trim(lines[i - 1]);
    } else {
      assert lines[0] == (lines + [[]])[0];
    }
  }

  lemma {:induction false} KeptSameLength(lines: seq<string>)
    requires |Kept(lines)| == |lines|
    ensures forall i :: 0 <= i < |lines| ==> Kept(lines)[i] == Trim(lines[i])
  {
    if lines != [] {
      KeptMembers(lines[..|lines| - 1]);
      KeptSameLength(lines[..|lines| - 1]);
    }
  }

  lemma {:induction false} FreeIfShown(lines: seq<string>)
    requires lines != [] && Shown(Kept(lines)) == lines && forall i :: 0 <= i < |lines| ==> !IsStop(lines[i])
    ensures FreeLines(lines)
  {
    ShownIsLines(lines);
    forall i | 0 <= i < |lines| ensures lines[i] == [] || FreeText(lines[i]) {
      KeptIsFree(lines, i);
    }
  }

  lemma {:induction false} ShownNeeds(c: string)
    requires c != [] && JoinLines(Shown(Kept(WrittenLines(c)))) == c
    requires forall i :: 0 <= i < |WrittenLines(c)| ==> !IsStop(WrittenLines(c)[i])
    ensures ContentOk(c)
  {
    var lines := WrittenLines(c);
    SplitEnd(c);
    ShownNonEmpty(Kept(lines));
    KeptMembers(lines);
    assert NoBreaks(Shown(Kept(lines)));
    JoinInjective(Shown(Kept(lines)), Split(c));
    if c[|c| - 1] == '\n' {
      forall i | 0 <= i < |Split(c)| ensures Split(c)[i] == [] {
        if i < |lines| {
          ShownWithBlank(lines, i);
        }
      }
      JoinBlanks(Split(c));
    } else {
      FreeIfShown(lines);
    }
  }

  /** Every content, whatever it ends in: what the formatter writes for it is read back as that content
      exactly when it consists of breaks only, or ends in no break, starts with a line that is not blank
      and holds nothing but blank lines and free text. */
  lemma {:induction false} ContentReadsIff(st: State, b: ParsedBlock, c: string)
    requires st.block == Some(b) && b.content == [] && st.inChange
    ensures Leads(st, WrittenLines(c), st.(block := Some(b.(content := c)))) <==> ContentOk(c)
  {
    var to := st.(block := Some(b.(content := c)));
    if ContentOk(c) {
      ContentReads(st, b, c);
    } else if Leads(st, WrittenLines(c), to) {
      NoStops(st, b, WrittenLines(c), to, 0);
      ContentIs(st, b, WrittenLines(c));
      ShownNeeds(c);
    }
  }

  /** A final break behind a text is lost, for every text that would come back without it. */
  lemma {:induction false} FinalBreakLost(st: State, b: ParsedBlock, c: string)
    requires st.block == Some(b) && b.content == [] && ContentOk(c) && !BreaksOnly(c)
    ensures Leads(st, WrittenLines(c + "\n"), st.(block := Some(b.(content := c))))
  {
    var longer := c + "\n";
    assert longer[..|c|] == c && longer[|c|] == '\n';
    assert Split(longer) == Split(c) + [[]];
    assert WrittenLines(longer) == Split(c) == WrittenLines(c);
    ContentReads(st, b, c);
  }

  lemma {:induction false} NoStops(st: State, b: ParsedBlock, lines: seq<string>, to: State, i: nat)
    requires st.block == Some(b) && b.content == [] && st.inChange && Leads(st, lines, to) && to.blocks == st.blocks
    requires i <= |lines| && forall j :: 0 <= j < i ==> !IsStop(lines[j])
    ensures forall j :: 0 <= j < |lines| ==> !IsStop(lines[j])
    decreases |lines| - i
  {
    if i < |lines| {
      if IsStop(lines[i]) {
        StopEnds(st, b, lines, i, to);
      } else {
        NoStops(st, b, lines, to, i + 1);
      }
    }
  }
}
