/**
 What the token rules of tools/bigcherry/source_lint.py mean, said of the characters: where a raw
 string starts and ends, where a comment ends, and when an apostrophe is a digit separator.
 */
module LintTokens {
  import opened Wrappers
  import opened SourceLint

  ghost predicate OccursAt(text: string, pattern: string, p: nat) {
    p + |pattern| <= |text| && text[p..p + |pattern|] == pattern
  }

  /** `end` is just past the first occurrence at or after `from`, or the end of the text without one. */
  ghost predicate EndsAtFirst(text: string, pattern: string, from: nat, end: nat) {
    || (exists p: nat :: from <= p && OccursAt(text, pattern, p) && end == p + |pattern|
                         && forall q: nat :: from <= q < p ==> !OccursAt(text, pattern, q))
    || (end == |text| && forall q: nat :: from <= q ==> !OccursAt(text, pattern, q))
  }

  lemma {:induction false} FindIsFirst(text: string, pattern: string, from: nat)
    requires pattern != ""
    ensures var f := Find(text, pattern, from);
      && (f.Some? ==> from <= f.value && OccursAt(text, pattern, f.value)
                      && forall q: nat :: from <= q < f.value ==> !OccursAt(text, pattern, q))
      && (f.None? ==> forall q: nat :: from <= q ==> !OccursAt(text, pattern, q))
    decreases |text| - from
  {
    if from + |pattern| <= |text| && text[from..from + |pattern|] != pattern {
      FindIsFirst(text, pattern, from + 1);
      assert !OccursAt(text, pattern, from);
    }
  }

  lemma {:induction false} AfterIsFirst(text: string, pattern: string, from: nat)
    requires pattern != ""
    ensures EndsAtFirst(text, pattern, from, After(text, pattern, from))
  {
    FindIsFirst(text, pattern, from);
  }

  /** The end of a search is determined by the text. */
  lemma {:induction false} EndUnique(text: string, pattern: string, from: nat, a: nat, b: nat)
    requires EndsAtFirst(text, pattern, from, a) && EndsAtFirst(text, pattern, from, b)
    ensures a == b
  {
    if p: nat :| from <= p && OccursAt(text, pattern, p) && a == p + |pattern|
                 && forall q: nat :: from <= q < p ==> !OccursAt(text, pattern, q)
    {
      if r: nat :| from <= r && OccursAt(text, pattern, r) && b == r + |pattern|
                   && forall q: nat :: from <= q < r ==> !OccursAt(text, pattern, q)
      {
        assert (p < r ==> !OccursAt(text, pattern, p)) && (r < p ==> !OccursAt(text, pattern, r));
      }
    }
  }

  /** `R"`, not inside a word, then a delimiter without breaks, spaces or parentheses, and its parenthesis. */
  ghost predicate RawStart(text: string, i: nat, paren: nat, alnum: char -> bool) {
    && i + 2 <= paren < |text| && paren < i + 20
    && text[i] == 'R' && text[i + 1] == '"'
    && (i == 0 || (!alnum(text[i - 1]) && text[i - 1] != '_'))
    && text[paren] == '('
    && forall q :: i + 2 <= q < paren ==> text[q] != '(' && text[q] != '\n' && text[q] != ' '
  }

  lemma {:induction false} OneCharacter(text: string, c: char, p: nat)
    ensures OccursAt(text, [c], p) <==> p < |text| && text[p] == c
  {
    if p < |text| { assert text[p..p + 1] == [text[p]]; }
  }

  /** The first parenthesis at or after `from`. */
  lemma {:induction false} FindParenthesis(text: string, from: nat, paren: nat)
    ensures Find(text, "(", from) == Some(paren) <==>
      from <= paren < |text| && text[paren] == '(' && forall q :: from <= q < paren ==> text[q] != '('
  {
    FindIsFirst(text, "(", from);
    forall q: nat ensures OccursAt(text, "(", q) <==> q < |text| && text[q] == '(' { OneCharacter(text, '(', q); }
    if from <= paren < |text| && text[paren] == '(' { assert OccursAt(text, "(", paren); }
  }

  lemma {:induction false} RawPrefixStarts(text: string, i: nat, paren: nat, alnum: char -> bool)
    requires i < |text| && RawStart(text, i, paren, alnum)
    ensures RawPrefix(text, i, alnum) == Some((paren, ")" + text[i + 2..paren] + "\""))
  {
    FindParenthesis(text, i + 2, paren);
    DelimiterClean(text, i + 2, paren);
  }

  lemma {:induction false} PrefixIsRawStart(text: string, i: nat, alnum: char -> bool)
    requires i < |text| && RawPrefix(text, i, alnum).Some?
    ensures RawStart(text, i, RawPrefix(text, i, alnum).value.0, alnum)
  {
    var paren := Find(text, "(", i + 2).value;
    FindParenthesis(text, i + 2, paren);
    DelimiterClean(text, i + 2, paren);
  }

  /** A raw string starts exactly there, and its closing text repeats its delimiter. */
  lemma {:induction false} RawPrefixIff(text: string, i: nat, paren: nat, alnum: char -> bool)
    requires i < |text|
    ensures RawPrefix(text, i, alnum).Some? && RawPrefix(text, i, alnum).value.0 == paren <==>
      RawStart(text, i, paren, alnum)
    ensures RawStart(text, i, paren, alnum) ==>
      RawPrefix(text, i, alnum) == Some((paren, ")" + text[i + 2..paren] + "\""))
  {
    if RawStart(text, i, paren, alnum) { RawPrefixStarts(text, i, paren, alnum); }
    if RawPrefix(text, i, alnum).Some? { PrefixIsRawStart(text, i, alnum); }
  }

  lemma {:induction false} DelimiterClean(text: string, lo: nat, hi: nat)
    requires lo <= hi <= |text|
    ensures ('\n' in text[lo..hi] || ' ' in text[lo..hi]) <==>
      exists q :: lo <= q < hi && (text[q] == '\n' || text[q] == ' ')
  {
    var d := text[lo..hi];
    forall q | lo <= q < hi ensures text[q] in d { assert d[q - lo] == text[q]; }
    if '\n' in d {
      var k :| 0 <= k < |d| && d[k] == '\n';
      assert text[lo + k] == '\n';
    }
    if ' ' in d {
      var k :| 0 <= k < |d| && d[k] == ' ';
      assert text[lo + k] == ' ';
    }
  }

  /** A raw string ends at the first `)`, delimiter and `"` after its parenthesis, and only its line breaks count. */
  lemma {:induction false} RawStringEnds(text: string, i: nat, line: nat, paren: nat, end: nat, alnum: char -> bool)
    requires RawStart(text, i, paren, alnum)
    requires EndsAtFirst(text, ")" + text[i + 2..paren] + "\"", paren, end)
    ensures i < end <= |text|
    ensures Scan(text, i, line, Code, alnum) == Scan(text, end, line + Newlines(text, i, end), Code, alnum)
  {
    var closer := ")" + text[i + 2..paren] + "\"";
    assert end == After(text, closer, paren) by {
      AfterIsFirst(text, closer, paren);
      EndUnique(text, closer, paren, end, After(text, closer, paren));
    }
    RawNext(text, i, line, paren, alnum);
    RawToken(text, i, line, paren, closer, alnum);
  }

  lemma {:induction false} RawNext(text: string, i: nat, line: nat, paren: nat, alnum: char -> bool)
    requires RawStart(text, i, paren, alnum)
    ensures Next(text, i, line, Code, alnum) == Raw(paren, ")" + text[i + 2..paren] + "\"")
  {
    RawPrefixStarts(text, i, paren, alnum);
  }

  // A block comment ends at the first star and slash in a row after its opening.
  lemma {:induction false} CommentEnds(text: string, i: nat, line: nat, end: nat, alnum: char -> bool)
    requires i + 1 < |text| && text[i] == '/' && text[i + 1] == '*' && EndsAtFirst(text, "*/", i + 2, end)
    ensures i < end <= |text|
    ensures Scan(text, i, line, Code, alnum) == Scan(text, end, line + Newlines(text, i, end), Code, alnum)
  {
    AfterIsFirst(text, "*/", i + 2);
    EndUnique(text, "*/", i + 2, end, After(text, "*/", i + 2));
    BlockToken(text, i, line, alnum);
  }

  // ------------------------------------------------------------------
  // Tokens with escapes

  /** The number of backslashes in a row just before `q`, back to `from`. */
  ghost function Backslashes(text: string, from: nat, q: nat): nat {
    if from < q <= |text| && text[q - 1] == '\\' then 1 + Backslashes(text, from, q - 1) else 0
  }

  /** No backslash of the token escapes the character at `q`. */
  ghost predicate Bare(text: string, from: nat, q: nat) { Backslashes(text, from, q) % 2 == 0 }

  /** `end` is the first character of `stops` after `i` that is not escaped, or the end of the text without one. */
  ghost predicate EndsBare(text: string, i: nat, stops: set<char>, end: nat) {
    && i < end <= |text|
    && (forall q :: i < q < end && Bare(text, i + 1, q) ==> text[q] !in stops)
    && (end < |text| ==> Bare(text, i + 1, end) && text[end] in stops)
  }

  /** There is exactly one such end. */
  lemma {:induction false} OneBareEnd(text: string, i: nat, stops: set<char>) returns (end: nat)
    requires i < |text|
    ensures EndsBare(text, i, stops, end) && forall other: nat :: EndsBare(text, i, stops, other) ==> other == end
  {
    end := i + 1;
    while end < |text| && !(Bare(text, i + 1, end) && text[end] in stops)
      invariant i < end <= |text|
      invariant forall q :: i < q < end && Bare(text, i + 1, q) ==> text[q] !in stops
    {
      end := end + 1;
    }
  }

  /** The state inside a token, and the one after a backslash of it. */
  ghost predicate Escapes(plain: State, escape: State) {
    || (plain == LineComment && escape == LineEscape)
    || (plain.Str? && escape == StrEscape(plain.start, plain.open))
    || (plain == Chr && escape == ChrEscape)
  }

  ghost function Stops(plain: State): set<char> {
    if plain.Str? then {'"', '\n'} else if plain.Chr? then {'\'', '\n'} else {'\n'}
  }

  ghost function Inside(text: string, from: nat, p: nat, plain: State, escape: State): State {
    if Bare(text, from, p) then plain else escape
  }

  /** Line breaks of a token that are counted: none in a character literal. */
  ghost function Breaks(text: string, p: nat, end: nat, plain: State): nat
    requires end <= |text|
  {
    if plain.Chr? then 0 else Newlines(text, p, end)
  }

  lemma {:induction false} InsideStep(text: string, from: nat, p: nat, line: nat, plain: State, escape: State,
                                      alnum: char -> bool)
    requires Escapes(plain, escape) && from <= p < |text|
    requires Bare(text, from, p) ==> text[p] !in Stops(plain)
    ensures var st := Inside(text, from, p, plain, escape);
      && Next(text, p, line, st, alnum) == Inside(text, from, p + 1, plain, escape)
      && !(st.Str? && text[p] == '\n')
      && Counted(text, p, st) == if text[p] == '\n' && !plain.Chr? then 1 else 0
  {
  }

  /** One character of the machine's run, without a report. */
  lemma {:induction false} ScanStep(text: string, p: nat, line: nat, st: State, next: State, alnum: char -> bool)
    requires p < |text| && !(st.Str? && text[p] == '\n') && Next(text, p, line, st, alnum) == next
    ensures Scan(text, p, line, st, alnum) == Scan(text, p + 1, line + Counted(text, p, st), next, alnum)
  {
  }

  /** The machine stays in the token up to its end. */
  lemma {:induction false} StaysInside(text: string, from: nat, p: nat, end: nat, line: nat, plain: State, escape: State,
                                       alnum: char -> bool)
    requires Escapes(plain, escape) && from <= p <= end <= |text|
    requires forall q :: p <= q < end && Bare(text, from, q) ==> text[q] !in Stops(plain)
    ensures Scan(text, p, line, Inside(text, from, p, plain, escape), alnum) ==
            Scan(text, end, line + Breaks(text, p, end, plain), Inside(text, from, end, plain, escape), alnum)
    decreases end - p
  {
    if p < end {
      var st, next := Inside(text, from, p, plain, escape), Inside(text, from, p + 1, plain, escape);
      InsideStep(text, from, p, line, plain, escape, alnum);
      ScanStep(text, p, line, st, next, alnum);
      StaysInside(text, from, p + 1, end, line + Counted(text, p, st), plain, escape, alnum);
    }
  }

  /** The reports from the character on that ends a token. */
  ghost function LeftAt(text: string, end: nat, line: nat, plain: State, alnum: char -> bool): seq<Report>
    requires end < |text|
  {
    if text[end] != '\n' then Scan(text, end + 1, line, Code, alnum)
    else if plain.Str? then [Report(plain.start, plain.open)] + Scan(text, end + 1, line + 1, Code, alnum)
    else Scan(text, end + 1, line + 1, Code, alnum)
  }

  /** The token is left for code with the character that ends it. */
  lemma {:induction false} Leaves(text: string, end: nat, line: nat, plain: State, escape: State, alnum: char -> bool)
    requires Escapes(plain, escape) && end < |text| && text[end] in Stops(plain)
    ensures Scan(text, end, line, plain, alnum) == LeftAt(text, end, line, plain, alnum)
  {
  }

  /** What the machine reports from the start of a token on. */
  ghost function Rest(text: string, i: nat, line: nat, end: nat, plain: State, alnum: char -> bool): seq<Report>
    requires i < end <= |text|
  {
    if end == |text| then []
    else
      LeftAt(text, end, line + Breaks(text, i, end, plain), plain, alnum)
  }

  lemma {:induction false} RunsToEnd(text: string, i: nat, line: nat, end: nat, plain: State, escape: State,
                                     alnum: char -> bool)
    requires Escapes(plain, escape) && EndsBare(text, i, Stops(plain), end)
    requires text[i] != '\n' && Next(text, i, line, Code, alnum) == plain
    ensures Scan(text, i, line, Code, alnum) == Rest(text, i, line, end, plain, alnum)
  {
    ScanStep(text, i, line, Code, plain, alnum);
    assert Inside(text, i + 1, i + 1, plain, escape) == plain;
    StaysInside(text, i + 1, i + 1, end, line, plain, escape, alnum);
    assert Breaks(text, i, end, plain) == Breaks(text, i + 1, end, plain);
    if end < |text| { Leaves(text, end, line + Breaks(text, i, end, plain), plain, escape, alnum); }
  }

  lemma {:induction false} StartsCharacter(text: string, i: nat, line: nat, alnum: char -> bool)
    requires i < |text| && text[i] == '\''
    requires !(0 < i && i + 1 < |text| && alnum(text[i - 1]) && alnum(text[i + 1]))
    ensures Next(text, i, line, Code, alnum) == Chr
  {
  }

  /** A string is reported exactly when a bare line break ends it, and the text is code again after either end. */
  lemma {:induction false} StringEnds(text: string, i: nat, line: nat, end: nat, alnum: char -> bool)
    requires i < |text| && text[i] == '"' && EndsBare(text, i, {'"', '\n'}, end)
    ensures var after := line + Newlines(text, i, end);
      Scan(text, i, line, Code, alnum) ==
        if end == |text| then []
        else if text[end] == '"' then Scan(text, end + 1, after, Code, alnum)
        else [Report(line, i)] + Scan(text, end + 1, after + 1, Code, alnum)
  {
    RunsToEnd(text, i, line, end, Str(line, i), StrEscape(line, i), alnum);
  }

  /** A line comment ends at the first line break that no backslash escapes. */
  lemma {:induction false} LineCommentEnds(text: string, i: nat, line: nat, end: nat, alnum: char -> bool)
    requires i + 1 < |text| && text[i] == '/' && text[i + 1] == '/' && EndsBare(text, i, {'\n'}, end)
    ensures var after := line + Newlines(text, i, end);
      Scan(text, i, line, Code, alnum) ==
        if end == |text| then [] else Scan(text, end + 1, after + 1, Code, alnum)
  {
    RunsToEnd(text, i, line, end, LineComment, LineEscape, alnum);
  }

  /** A character literal ends at its bare apostrophe or line break; its escaped line breaks are not counted. */
  lemma {:induction false} CharacterEnds(text: string, i: nat, line: nat, end: nat, alnum: char -> bool)
    requires i < |text| && text[i] == '\'' && EndsBare(text, i, {'\'', '\n'}, end)
    requires !(0 < i && i + 1 < |text| && alnum(text[i - 1]) && alnum(text[i + 1]))
    ensures Scan(text, i, line, Code, alnum) ==
        if end == |text| then []
        else Scan(text, end + 1, if text[end] == '\n' then line + 1 else line, Code, alnum)
  {
    StartsCharacter(text, i, line, alnum);
    RunsToEnd(text, i, line, end, Chr, ChrEscape, alnum);
  }

  /** Every other character, a digit separator among them, is passed over alone. */
  lemma {:induction false} PlainCharacter(text: string, i: nat, line: nat, alnum: char -> bool)
    requires i < |text|
    requires text[i] == '/' ==> i + 1 == |text| || text[i + 1] !in {'/', '*'}
    requires text[i] == 'R' ==> forall paren: nat :: !RawStart(text, i, paren, alnum)
    requires text[i] != '"'
    requires text[i] == '\'' ==> 0 < i && i + 1 < |text| && alnum(text[i - 1]) && alnum(text[i + 1])
    ensures Scan(text, i, line, Code, alnum) ==
            Scan(text, i + 1, if text[i] == '\n' then line + 1 else line, Code, alnum)
  {
    if RawPrefix(text, i, alnum).Some? { PrefixIsRawStart(text, i, alnum); }
  }
}
