/** What the lines reported by the lint of tools/bigcherry/source_lint.py mean. */
module LintLines {
  import opened SourceLint

  ghost predicate InString(st: State) { st.Str? || st.StrEscape? }

  ghost predicate Rising(reports: seq<Report>) {
    forall i, j :: 0 <= i < j < |reports| ==> reports[i].line < reports[j].line
  }

  ghost predicate Between(reports: seq<Report>, lo: nat, hi: nat) {
    forall i :: 0 <= i < |reports| ==> lo <= reports[i].line <= hi
  }

  /** The line a string started on never changes while the string is open. */
  lemma {:induction false} NextStart(text: string, i: nat, line: nat, st: State, alnum: char -> bool)
    requires i < |text|
    ensures var next := Next(text, i, line, st, alnum);
      && (InString(next) ==> next.start == if InString(st) then st.start else line)
      && (st.Str? && text[i] == '\n' ==> next == Code)
  {
  }

  ghost function Floor(line: nat, st: State): nat { if InString(st) then st.start else line }

  ghost predicate Sane(line: nat, st: State) { InString(st) ==> st.start <= line }

  /** Reported lines stay inside the text ... */
  lemma {:induction false} ScanBetween(text: string, i: nat, line: nat, st: State, alnum: char -> bool)
    requires Sane(line, st)
    ensures Between(Scan(text, i, line, st, alnum), Floor(line, st), line + Newlines(text, i, |text|))
    decreases |text| - i
  {
    if i < |text| {
      NextStart(text, i, line, st, alnum);
      ScanBetween(text, i + 1, line + Counted(text, i, st), Next(text, i, line, st, alnum), alnum);
    }
  }

  /** ... and rise strictly. */
  lemma {:induction false} ScanRises(text: string, i: nat, line: nat, st: State, alnum: char -> bool)
    requires Sane(line, st)
    ensures Rising(Scan(text, i, line, st, alnum))
    decreases |text| - i
  {
    if i < |text| {
      var line', st' := line + Counted(text, i, st), Next(text, i, line, st, alnum);
      NextStart(text, i, line, st, alnum);
      ScanRises(text, i + 1, line', st', alnum);
      ScanBetween(text, i + 1, line', st', alnum);
    }
  }

  lemma {:induction false} ReportsRise(text: string, alnum: char -> bool)
    ensures Rising(Reports(text, alnum))
    ensures Between(Reports(text, alnum), 1, 1 + Newlines(text, 0, |text|))
  {
    ScanRises(text, 0, 1, Code, alnum);
    ScanBetween(text, 0, 1, Code, alnum);
  }

  /** Line breaks before `o` that an escape in a character literal hides from the count. */
  ghost function Hidden(text: string, i: nat, line: nat, st: State, o: nat, alnum: char -> bool): nat
    decreases |text| - i
  {
    if i >= |text| || i >= o then 0
    else (if st.ChrEscape? && text[i] == '\n' then 1 else 0)
         + Hidden(text, i + 1, line + Counted(text, i, st), Next(text, i, line, st, alnum), o, alnum)
  }

  /** A string that is open after a character was open before it, or opens at it. */
  lemma {:induction false} NextOpen(text: string, i: nat, line: nat, st: State, alnum: char -> bool)
    requires i < |text|
    ensures var next := Next(text, i, line, st, alnum);
      InString(next) ==>
        if InString(st) then next.start == st.start && next.open == st.open
        else next == Str(line, i) && text[i] == '"' && Counted(text, i, st) == 0
  {
  }

  lemma {:induction false} ScanLocates(text: string, i: nat, line: nat, st: State, r: Report, alnum: char -> bool)
    requires r in Scan(text, i, line, st, alnum)
    ensures (InString(st) && r == Report(st.start, st.open)) ||
      (i <= r.open < |text| && text[r.open] == '"' &&
       r.line + Hidden(text, i, line, st, r.open, alnum) == line + Newlines(text, i, r.open))
    decreases |text| - i
  {
    if !(st.Str? && text[i] == '\n' && r == Report(st.start, st.open)) {
      var line', next := line + Counted(text, i, st), Next(text, i, line, st, alnum);
      assert r in Scan(text, i + 1, line', next, alnum);
      NextOpen(text, i, line, st, alnum);
      ScanLocates(text, i + 1, line', next, r, alnum);
    }
  }

  /**
   A reported line is the line of the opening quote, less the line breaks hidden before it:
   exact if and only if no character literal before it hides one.
   */
  lemma {:induction false} ReportedLine(text: string, r: Report, alnum: char -> bool)
    requires r in Reports(text, alnum)
    ensures r.open < |text| && text[r.open] == '"'
    ensures r.line == 1 + Newlines(text, 0, r.open) - Hidden(text, 0, 1, Code, r.open, alnum)
    ensures r.line == 1 + Newlines(text, 0, r.open) <==> Hidden(text, 0, 1, Code, r.open, alnum) == 0
  {
    ScanLocates(text, 0, 1, Code, r, alnum);
  }

  // ------------------------------------------------------------------
  // rw_string_newlines

  /** What a line of a `.rw` file is: a block marker, an end marker or text. */
  datatype Mark = Start | End | Text

  function Join(lines: seq<string>): string {
    if lines == [] then ""
    else if |lines| == 1 then lines[0]
    else lines[0] + "\n" + Join(lines[1..])
  }

  function Shifted(bad: seq<nat>, shift: nat): (r: seq<nat>)
    ensures |r| == |bad| && forall i :: 0 <= i < |r| ==> r[i] == bad[i] + shift
  {
    if bad == [] then [] else [bad[0] + shift] + Shifted(bad[1..], shift)
  }

  /** The first marker line at or after `k`. */
  function NextMark(lines: seq<string>, k: nat, mark: string -> Mark): (e: nat)
    requires k <= |lines|
    ensures k <= e <= |lines|
    decreases |lines| - k
  {
    if k == |lines| || mark(lines[k]) != Text then k else NextMark(lines, k + 1, mark)
  }

  /** The lines of each block, from the line after its marker to the next marker, lexed alone. */
  ghost function BlockReports(lines: seq<string>, k: nat, mark: string -> Mark, alnum: char -> bool): seq<nat>
    requires k <= |lines|
    decreases |lines| - k
  {
    if k == |lines| then []
    else if mark(lines[k]) == Start then
      var e := NextMark(lines, k + 1, mark);
      Shifted(Lines(Reports(Join(lines[k + 1..e]), alnum)), k + 1) + BlockReports(lines, e, mark, alnum)
    else BlockReports(lines, k + 1, mark, alnum)
  }

  /** The loop of `rw_string_newlines` before line `k`: `block` is open if `first` is set. */
  ghost predicate Reading(lines: seq<string>, k: nat, bad: seq<nat>, block: seq<string>, first: nat,
                          mark: string -> Mark, alnum: char -> bool)
    requires k <= |lines|
  {
    var all := BlockReports(lines, 0, mark, alnum);
    if first == 0 then block == [] && all == bad + BlockReports(lines, k, mark, alnum)
    else
      && 2 <= first <= k + 1
      && block == lines[first - 1..k]
      && var e := NextMark(lines, k, mark);
         all == bad + Shifted(Lines(Reports(Join(lines[first - 1..e]), alnum)), first - 1)
                + BlockReports(lines, e, mark, alnum)
  }

  /** The nested `flush`. */
  method Flush(bad0: seq<nat>, block: seq<string>, first: nat, alnum: char -> bool) returns (bad: seq<nat>)
    ensures bad == bad0 + if first == 0 then [] else Shifted(Lines(Reports(Join(block), alnum)), first - 1)
  {
    if first == 0 || block == [] {
      return bad0;
    }
    var found := CppStringNewlines(Join(block), alnum);
    return bad0 + Shifted(found, first - 1);
  }

  /** At a marker or at the end of the file, a flush completes the block before it. */
  lemma {:induction false} Flushed(lines: seq<string>, k: nat, bad: seq<nat>, block: seq<string>, first: nat, bad': seq<nat>,
                mark: string -> Mark, alnum: char -> bool)
    requires k <= |lines| && (k < |lines| ==> mark(lines[k]) != Text)
    requires Reading(lines, k, bad, block, first, mark, alnum)
    requires bad' == bad + if first == 0 then [] else Shifted(Lines(Reports(Join(block), alnum)), first - 1)
    ensures BlockReports(lines, 0, mark, alnum) == bad' + BlockReports(lines, k, mark, alnum)
  {
  }

  /** A line of text extends the open block, if there is one. */
  lemma {:induction false} TextLine(lines: seq<string>, k: nat, bad: seq<nat>, block: seq<string>, first: nat,
                 mark: string -> Mark, alnum: char -> bool)
    requires k < |lines| && mark(lines[k]) == Text
    requires Reading(lines, k, bad, block, first, mark, alnum)
    ensures Reading(lines, k + 1, bad, if first != 0 then block + [lines[k]] else block, first, mark, alnum)
  {
    if first != 0 { assert lines[first - 1..k + 1] == block + [lines[k]]; }
  }

  /** A marker opens a new block, or closes the last one. */
  lemma {:induction false} MarkerLine(lines: seq<string>, k: nat, bad: seq<nat>, mark: string -> Mark, alnum: char -> bool)
    requires k < |lines| && mark(lines[k]) != Text
    requires BlockReports(lines, 0, mark, alnum) == bad + BlockReports(lines, k, mark, alnum)
    ensures Reading(lines, k + 1, bad, [], if mark(lines[k]) == Start then k + 2 else 0, mark, alnum)
  {
    if mark(lines[k]) == Start {
      var e := NextMark(lines, k + 1, mark);
      var block, rest := Shifted(Lines(Reports(Join(lines[k + 1..e]), alnum)), k + 1), BlockReports(lines, e, mark, alnum);
      assert BlockReports(lines, k, mark, alnum) == block + rest;
      assert bad + (block + rest) == bad + block + rest;
    }
  }

  /** The flush before a marker line and at the end of the file. */
  method FlushAt(lines: seq<string>, k: nat, bad0: seq<nat>, block: seq<string>, first: nat,
                 ghost mark: string -> Mark, alnum: char -> bool) returns (bad: seq<nat>)
    requires k <= |lines| && (k < |lines| ==> mark(lines[k]) != Text)
    requires Reading(lines, k, bad0, block, first, mark, alnum)
    ensures BlockReports(lines, 0, mark, alnum) == bad + BlockReports(lines, k, mark, alnum)
  {
    bad := Flush(bad0, block, first, alnum);
    Flushed(lines, k, bad0, block, first, bad, mark, alnum);
  }

  /** One line: text extends the open block, a marker flushes it and may open the next. */
  method ReadLine(lines: seq<string>, k: nat, bad0: seq<nat>, block0: seq<string>, first0: nat,
                  mark: string -> Mark, alnum: char -> bool)
    returns (bad: seq<nat>, block: seq<string>, first: nat)
    requires k < |lines| && Reading(lines, k, bad0, block0, first0, mark, alnum)
    ensures Reading(lines, k + 1, bad, block, first, mark, alnum)
  {
    if mark(lines[k]) == Text {
      TextLine(lines, k, bad0, block0, first0, mark, alnum);
      return bad0, if first0 != 0 then block0 + [lines[k]] else block0, first0;
    }
    bad := FlushAt(lines, k, bad0, block0, first0, mark, alnum);
    MarkerLine(lines, k, bad, mark, alnum);
    return bad, [], if mark(lines[k]) == Start then k + 2 else 0;
  }

  /** `rw_string_newlines` over the lines of the file. */
  method RwStringNewlines(lines: seq<string>, mark: string -> Mark, alnum: char -> bool) returns (bad: seq<nat>)
    ensures bad == BlockReports(lines, 0, mark, alnum)
  {
    bad := [];
    var block: seq<string>, first: nat := [], 0;
    for k := 0 to |lines|
      invariant Reading(lines, k, bad, block, first, mark, alnum)
    {
      bad, block, first := ReadLine(lines, k, bad, block, first, mark, alnum);
    }
    bad := FlushAt(lines, |lines|, bad, block, first, mark, alnum);
  }

  lemma {:induction false} NewlinesConcat(a: string, b: string, lo: nat)
    requires lo <= |a|
    ensures Newlines(a + b, lo, |a + b|) == Newlines(a, lo, |a|) + Newlines(b, 0, |b|)
    decreases |a| - lo
  {
    if lo < |a| {
      NewlinesConcat(a, b, lo + 1);
    } else {
      NewlinesSuffix(a, b, 0);
    }
  }

  lemma {:induction false} NewlinesSuffix(a: string, b: string, k: nat)
    requires k <= |b|
    ensures Newlines(a + b, |a| + k, |a + b|) == Newlines(b, k, |b|)
    decreases |b| - k
  {
    if k < |b| { NewlinesSuffix(a, b, k + 1); }
  }

  /** Lines hold no line breaks, so a block has one less than it has lines. */
  lemma {:induction false} JoinBreaks(lines: seq<string>)
    requires lines != [] && forall l :: l in lines ==> '\n' !in l
    ensures Newlines(Join(lines), 0, |Join(lines)|) == |lines| - 1
  {
    assert lines[0] in lines;
    NoBreaks(lines[0], 0);
    if |lines| > 1 {
      JoinBreaks(lines[1..]);
      NewlinesConcat(lines[0] + "\n", Join(lines[1..]), 0);
      NewlinesConcat(lines[0], "\n", 0);
      NoBreaks(lines[0], 0);
      assert Newlines("\n", 0, 1) == 1;
    }
  }

  lemma {:induction false} NoBreaks(l: string, k: nat)
    requires '\n' !in l
    ensures Newlines(l, k, |l|) == 0
    decreases |l| - k
  {
    if k < |l| { NoBreaks(l, k + 1); }
  }

  ghost predicate RisingLines(s: seq<nat>, lo: nat, hi: nat) {
    && (forall i, j :: 0 <= i < j < |s| ==> s[i] < s[j])
    && (forall i :: 0 <= i < |s| ==> lo < s[i] <= hi)
  }

  /** Block reports rise strictly and name lines of the file that lie in a block. */
  lemma {:induction false} BlockReportsRise(lines: seq<string>, k: nat, mark: string -> Mark, alnum: char -> bool)
    requires k <= |lines| && forall l :: l in lines ==> '\n' !in l
    ensures RisingLines(BlockReports(lines, k, mark, alnum), k, |lines|)
    decreases |lines| - k
  {
    if k < |lines| {
      if mark(lines[k]) == Start {
        var e := NextMark(lines, k + 1, mark);
        BlockReportsRise(lines, e, mark, alnum);
        OneBlock(lines[k + 1..e], k + 1, alnum);
      } else {
        BlockReportsRise(lines, k + 1, mark, alnum);
      }
    }
  }

  lemma {:induction false} OneBlock(block: seq<string>, shift: nat, alnum: char -> bool)
    requires forall l :: l in block ==> '\n' !in l
    ensures RisingLines(Shifted(Lines(Reports(Join(block), alnum)), shift), shift, shift + |block|)
  {
    var reports := Reports(Join(block), alnum);
    if block == [] {
      assert Join(block) == "";
    } else {
      ReportsRise(Join(block), alnum);
      JoinBreaks(block);
    }
  }

  /** An escaped line break in a character literal: the string on line 2 is reported on line 1. */
  lemma {:induction false} HiddenBreakShifts(alnum: char -> bool)
    requires !alnum('\\') && !alnum('\n')
    ensures var text := "'\\\n'\"\n"; Report(1, 4) in Reports(text, alnum) && Newlines(text, 0, 4) == 1
  {
    var text := "'\\\n'\"\n";
    assert Next(text, 0, 1, Code, alnum) == Chr;
    assert Next(text, 1, 1, Chr, alnum) == ChrEscape;
    assert Next(text, 2, 1, ChrEscape, alnum) == Chr;
    assert Next(text, 3, 1, Chr, alnum) == Code;
    assert Next(text, 4, 1, Code, alnum) == Str(1, 4);
    assert Report(1, 4) in Scan(text, 5, 1, Str(1, 4), alnum);
    assert Report(1, 4) in Scan(text, 3, 1, Chr, alnum);
    assert Newlines(text, 2, 4) == 1 + Newlines(text, 3, 4);
  }
}
