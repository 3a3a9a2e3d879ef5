/**
 The C++ string-literal lint of tools/bigcherry/source_lint.py. The specification is a
 machine that reads one character at a time; the index-jumping lexer refines it.
 `alnum` stands for `str.isalnum` on one character.
 */
module SourceLint {
  import opened Wrappers

  datatype State =
    | Code
    | LineComment
    | LineEscape                            // after a backslash in a // comment
    | BlockOpen                             // at the `*` of a comment opener
    | Block(star: bool)                     // whether the previous character was a `*`
    | Raw(paren: nat, closer: string)
    | Str(start: nat, open: nat)            // line and position of the opening quote
    | StrEscape(start: nat, open: nat)
    | Chr
    | ChrEscape

  /** A string literal still open at the end of its line. */
  datatype Report = Report(line: nat, open: nat)

  predicate At(text: string, i: nat, c: char) { i < |text| && text[i] == c }

  /** `text.find(pattern, from)`. */
  function Find(text: string, pattern: string, from: nat): (r: Option<nat>)
    ensures r.Some? ==> from <= r.value && r.value + |pattern| <= |text|
    decreases |text| - from
  {
    if from + |pattern| > |text| then None
    else if text[from..from + |pattern|] == pattern || pattern == "" then Some(from)
    else Find(text, pattern, from + 1)
  }

  /** Just past the next occurrence of `pattern`, or the end of the text. */
  function After(text: string, pattern: string, from: nat): (end: nat)
    ensures end <= |text|
    ensures from + |pattern| <= |text| ==> from + |pattern| <= end
    ensures from + |pattern| > |text| ==> end == |text|
  {
    var f := Find(text, pattern, from);
    if f.None? then |text| else f.value + |pattern|
  }

  /** `text.count("\n", lo, hi)`. */
  function Newlines(text: string, lo: nat, hi: nat): nat
    requires hi <= |text|
    decreases hi - lo
  {
    if lo >= hi then 0 else (if text[lo] == '\n' then 1 else 0) + Newlines(text, lo + 1, hi)
  }

  /** The position of the parenthesis of a raw-string prefix at `i`, with its closing text. */
  function RawPrefix(text: string, i: nat, alnum: char -> bool): Option<(nat, string)>
    requires i < |text|
  {
    if text[i] == 'R' && At(text, i + 1, '"') && (i == 0 || !(alnum(text[i - 1]) || text[i - 1] == '_')) then
      var paren := Find(text, "(", i + 2);
      if paren.None? || paren.value - i >= 20 then None
      else
        var delim := text[i + 2..paren.value];
        if '\n' in delim || ' ' in delim then None else Some((paren.value, ")" + delim + "\""))
    else None
  }

  /** Whether an apostrophe separates digits, as in `1'000'000`. */
  predicate Separator(text: string, i: nat, alnum: char -> bool)
    requires i < |text|
  {
    i > 0 && alnum(text[i - 1]) && i + 1 < |text| && alnum(text[i + 1])
  }

  function NextInCode(text: string, i: nat, line: nat, alnum: char -> bool): State
    requires i < |text|
  {
    var c := text[i];
    if c == '\n' then Code
    else if c == '/' && At(text, i + 1, '/') then LineComment
    else if c == '/' && At(text, i + 1, '*') then BlockOpen
    else
      var raw := RawPrefix(text, i, alnum);
      if raw.Some? then Raw(raw.value.0, raw.value.1)
      else if c == '"' then Str(line, i)
      else if c == '\'' && !Separator(text, i, alnum) then Chr
      else Code
  }

  /** The closing text of a raw string ends with the character at `i`. */
  predicate Closes(text: string, i: nat, paren: nat, closer: string)
    requires i < |text|
  {
    i + 1 >= paren + |closer| && text[i + 1 - |closer|..i + 1] == closer
  }

  /** The state after the character at `i`. */
  function Next(text: string, i: nat, line: nat, st: State, alnum: char -> bool): State
    requires i < |text|
  {
    var c := text[i];
    match st
    case Code => NextInCode(text, i, line, alnum)
    case LineComment => if c == '\n' then Code else if c == '\\' then LineEscape else LineComment
    case LineEscape => LineComment
    case BlockOpen => Block(false)
    case Block(star) => if star && c == '/' then Code else Block(c == '*')
    case Raw(paren, closer) => if Closes(text, i, paren, closer) then Code else st
    case Str(s, o) => if c == '"' || c == '\n' then Code else if c == '\\' then StrEscape(s, o) else st
    case StrEscape(s, o) => Str(s, o)
    case Chr => if c == '\'' || c == '\n' then Code else if c == '\\' then ChrEscape else Chr
    case ChrEscape => Chr
  }

  /** A line break is counted, except one escaped inside a character literal. */
  function Counted(text: string, i: nat, st: State): nat
    requires i < |text|
  {
    if text[i] == '\n' && !st.ChrEscape? then 1 else 0
  }

  /** The reports of the machine from position `i` on. */
  function Scan(text: string, i: nat, line: nat, st: State, alnum: char -> bool): seq<Report>
    decreases |text| - i
  {
    if i >= |text| then []
    else
      (if st.Str? && text[i] == '\n' then [Report(st.start, st.open)] else []) +
      Scan(text, i + 1, line + Counted(text, i, st), Next(text, i, line, st, alnum), alnum)
  }

  /** The one-pass specification of the lint. */
  function Reports(text: string, alnum: char -> bool): seq<Report> { Scan(text, 0, 1, Code, alnum) }

  function Lines(reports: seq<Report>): (r: seq<nat>)
    ensures |r| == |reports| && forall i :: 0 <= i < |r| ==> r[i] == reports[i].line
  {
    if reports == [] then [] else [reports[0].line] + Lines(reports[1..])
  }

  // ------------------------------------------------------------------
  // The jumps of the lexer

  /** Where a comment's closer could still start: at the star just read, or here. */
  ghost function StarPending(p: nat, star: bool): nat { if star && p > 0 then p - 1 else p }

  lemma {:induction false} StarStep(text: string, p: nat, star: bool)
    requires p <= |text| && (star ==> p >= 1 && text[p - 1] == '*')
    ensures p <= After(text, "*/", StarPending(p, star))
    ensures p == |text| ==> After(text, "*/", StarPending(p, star)) == |text|
    ensures p < |text| && star && text[p] == '/' ==> After(text, "*/", StarPending(p, star)) == p + 1
    ensures p < |text| && !(star && text[p] == '/') ==>
      p < After(text, "*/", StarPending(p, star)) == After(text, "*/", StarPending(p + 1, text[p] == '*'))
  {
    var q := StarPending(p, star);
    if p < |text| {
      assert star ==> text[q..q + 2] == ['*', text[p]];
      assert star && text[p] != '/' ==> Find(text, "*/", q) == Find(text, "*/", p);
      assert p + 2 <= |text| ==> text[p..p + 2] == [text[p], text[p + 1]];
      assert text[p] != '*' ==> Find(text, "*/", p) == Find(text, "*/", p + 1);
    }
  }

  /** Jumping over a block comment. */
  lemma {:induction false} BlockJump(text: string, p: nat, line: nat, star: bool, end: nat, alnum: char -> bool)
    requires p <= |text| && (star ==> p >= 1 && text[p - 1] == '*')
    requires end == After(text, "*/", StarPending(p, star))
    ensures p <= end
    ensures Scan(text, p, line, Block(star), alnum) == Scan(text, end, line + Newlines(text, p, end), Code, alnum)
    decreases |text| - p
  {
    StarStep(text, p, star);
    if p < |text| && !(star && text[p] == '/') {
      BlockJump(text, p + 1, line + Counted(text, p, Block(star)), text[p] == '*', end, alnum);
    }
  }

  /** Where a raw string's closing text could still start, before the character at `p`. */
  ghost function Pending(p: nat, paren: nat, closer: string): nat {
    if p + 1 >= paren + |closer| then p + 1 - |closer| else paren
  }

  lemma {:induction false} PendingStep(text: string, p: nat, paren: nat, closer: string)
    requires |closer| >= 2 && p <= |text|
    ensures p <= After(text, closer, Pending(p, paren, closer))
    ensures p == |text| ==> After(text, closer, Pending(p, paren, closer)) == |text|
    ensures p < |text| && Closes(text, p, paren, closer) ==> After(text, closer, Pending(p, paren, closer)) == p + 1
    ensures p < |text| && !Closes(text, p, paren, closer) ==>
      p < After(text, closer, Pending(p, paren, closer)) == After(text, closer, Pending(p + 1, paren, closer))
  {
  }

  /** Jumping over a raw string. */
  lemma {:induction false} RawJump(text: string, p: nat, line: nat, paren: nat, closer: string, end: nat,
                                   alnum: char -> bool)
    requires p <= end && |closer| >= 2 && end <= |text| && end == After(text, closer, Pending(p, paren, closer))
    ensures Scan(text, p, line, Raw(paren, closer), alnum) == Scan(text, end, line + Newlines(text, p, end), Code, alnum)
    decreases |text| - p
  {
    PendingStep(text, p, paren, closer);
    if p < |text| {
      RawStep(text, p, line, paren, closer, alnum);
      if !Closes(text, p, paren, closer) {
        RawJump(text, p + 1, line + Counted(text, p, Raw(paren, closer)), paren, closer, end, alnum);
      }
    }
  }

  lemma {:induction false} RawStep(text: string, p: nat, line: nat, paren: nat, closer: string, alnum: char -> bool)
    requires p < |text|
    ensures Scan(text, p, line, Raw(paren, closer), alnum) ==
      Scan(text, p + 1, line + (if text[p] == '\n' then 1 else 0),
           if Closes(text, p, paren, closer) then Code else Raw(paren, closer), alnum)
  {
  }

  // ------------------------------------------------------------------
  // cpp_string_newlines

  /** The // branch: up to the line break that ends the comment. */
  method SkipLineComment(text: string, i0: nat, line0: nat, alnum: char -> bool) returns (i: nat, line: nat)
    requires i0 < |text|
    ensures i0 <= i
    ensures Scan(text, i0, line0, LineComment, alnum) == Scan(text, i, line, Code, alnum)
    ensures text[i0] != '\n' ==> i0 < i
  {
    i, line := i0, line0;
    while i < |text| && text[i] != '\n'
      invariant i0 <= i && (text[i0] != '\n' && i == i0 ==> i < |text|)
      invariant Scan(text, i0, line0, LineComment, alnum) == Scan(text, i, line, LineComment, alnum)
      decreases |text| - i
    {
      if text[i] == '\\' && i + 1 < |text| {
        i := i + 1;
        if text[i] == '\n' {
          line := line + 1;
        }
      }
      i := i + 1;
    }
  }

  /** The string branch, after the opening quote at `open`. */
  method SkipString(text: string, open: nat, line0: nat, alnum: char -> bool)
    returns (i: nat, line: nat, bad: bool)
    requires open < |text|
    ensures open < i
    ensures Scan(text, open + 1, line0, Str(line0, open), alnum) ==
      (if bad then [Report(line0, open)] else []) + Scan(text, i, line, Code, alnum)
  {
    i, line := open + 1, line0;
    while i < |text|
      invariant open < i
      invariant Scan(text, open + 1, line0, Str(line0, open), alnum) == Scan(text, i, line, Str(line0, open), alnum)
      decreases |text| - i
    {
      if text[i] == '\\' {
        if i + 1 < |text| && text[i + 1] == '\n' {
          line := line + 1;
        }
        i := i + 2;
        continue;
      }
      if text[i] == '"' {
        i := i + 1;
        return i, line, false;
      }
      if text[i] == '\n' {
        return i, line, true;
      }
      i := i + 1;
    }
    bad := false;
  }

  /** The character-literal branch, after the opening apostrophe. */
  method SkipChar(text: string, i0: nat, line: nat, alnum: char -> bool) returns (i: nat)
    ensures i0 <= i
    ensures Scan(text, i0, line, Chr, alnum) == Scan(text, i, line, Code, alnum)
  {
    i := i0;
    while i < |text| && text[i] != '\'' && text[i] != '\n'
      invariant i0 <= i
      invariant Scan(text, i0, line, Chr, alnum) == Scan(text, i, line, Chr, alnum)
      decreases |text| - i
    {
      i := i + if text[i] == '\\' then 2 else 1;
    }
    if i < |text| && text[i] == '\'' {
      i := i + 1;
    }
  }

  lemma {:induction false} LinesAppend(a: seq<Report>, b: seq<Report>)
    ensures Lines(a + b) == Lines(a) + Lines(b)
  {
  }

  /** One token of code that is neither a comment, a string nor a character literal. */
  method SkipOther(text: string, i0: nat, line0: nat, alnum: char -> bool) returns (i: nat, line: nat)
    requires i0 < |text|
    requires var st := NextInCode(text, i0, line0, alnum); st.Code? || st.Raw?
    ensures i0 < i
    ensures Scan(text, i0, line0, Code, alnum) == Scan(text, i, line, Code, alnum)
  {
    var raw := RawPrefix(text, i0, alnum);
    if text[i0] == '\n' {
      return i0 + 1, line0 + 1;
    }
    if raw.Some? {
      i, line := SkipRaw(text, i0, line0, alnum);
      return;
    }
    return i0 + 1, line0;
  }

  /** A raw string that starts at `i0`. */
  method SkipRaw(text: string, i0: nat, line0: nat, alnum: char -> bool) returns (i: nat, line: nat)
    requires i0 < |text| && text[i0] != '\n' && RawPrefix(text, i0, alnum).Some?
    requires NextInCode(text, i0, line0, alnum).Raw?
    ensures i0 < i
    ensures Scan(text, i0, line0, Code, alnum) == Scan(text, i, line, Code, alnum)
  {
    var raw := RawPrefix(text, i0, alnum).value;
    var end := After(text, raw.1, raw.0);
    RawToken(text, i0, line0, raw.0, raw.1, alnum);
    return end, line0 + Newlines(text, i0, end);
  }

  lemma {:induction false} RawToken(text: string, i0: nat, line0: nat, paren: nat, closer: string, alnum: char -> bool)
    requires i0 + 2 <= paren < |text| && |closer| >= 2 && text[i0] == 'R'
    requires Next(text, i0, line0, Code, alnum) == Raw(paren, closer)
    ensures var end := After(text, closer, paren);
      i0 < end && Scan(text, i0, line0, Code, alnum) == Scan(text, end, line0 + Newlines(text, i0, end), Code, alnum)
  {
    var end := After(text, closer, paren);
    assert Pending(i0 + 1, paren, closer) == paren;
    RawJump(text, i0 + 1, line0, paren, closer, end, alnum);
    assert Newlines(text, i0, end) == Newlines(text, i0 + 1, end);
    assert Scan(text, i0, line0, Code, alnum) == Scan(text, i0 + 1, line0, Raw(paren, closer), alnum);
  }

  /** A comment that starts at `i0`. */
  method SkipComment(text: string, i0: nat, line0: nat, alnum: char -> bool) returns (i: nat, line: nat)
    requires i0 < |text| && text[i0] == '/' && (At(text, i0 + 1, '/') || At(text, i0 + 1, '*'))
    ensures i0 < i
    ensures Scan(text, i0, line0, Code, alnum) == Scan(text, i, line, Code, alnum)
  {
    if At(text, i0 + 1, '/') {
      assert Scan(text, i0, line0, Code, alnum) == Scan(text, i0 + 1, line0, LineComment, alnum);
      i, line := SkipLineComment(text, i0 + 1, line0, alnum);
      return;
    }
    i := After(text, "*/", i0 + 2);
    BlockToken(text, i0, line0, alnum);
    line := line0 + Newlines(text, i0, i);
  }

  lemma {:induction false} BlockToken(text: string, i0: nat, line0: nat, alnum: char -> bool)
    requires i0 + 1 < |text| && text[i0] == '/' && text[i0 + 1] == '*'
    ensures var end := After(text, "*/", i0 + 2);
      i0 < end && Scan(text, i0, line0, Code, alnum) == Scan(text, end, line0 + Newlines(text, i0, end), Code, alnum)
  {
    var end := After(text, "*/", i0 + 2);
    assert Scan(text, i0, line0, Code, alnum) == Scan(text, i0 + 1, line0, BlockOpen, alnum);
    assert Scan(text, i0 + 1, line0, BlockOpen, alnum) == Scan(text, i0 + 2, line0, Block(false), alnum);
    BlockJump(text, i0 + 2, line0, false, end, alnum);
    assert Newlines(text, i0, end) == Newlines(text, i0 + 1, end) == Newlines(text, i0 + 2, end);
  }

  /** One iteration of the lexer's outer loop. */
  method Token(text: string, i0: nat, line0: nat, alnum: char -> bool) returns (i: nat, line: nat, bad: bool)
    requires i0 < |text|
    ensures i0 < i
    ensures Scan(text, i0, line0, Code, alnum) ==
      (if bad then [Report(line0, i0)] else []) + Scan(text, i, line, Code, alnum)
  {
    var c := text[i0];
    bad := false;
    if c == '/' && (At(text, i0 + 1, '/') || At(text, i0 + 1, '*')) {
      i, line := SkipComment(text, i0, line0, alnum);
    } else if c == '"' {
      assert Scan(text, i0, line0, Code, alnum) == Scan(text, i0 + 1, line0, Str(line0, i0), alnum);
      i, line, bad := SkipString(text, i0, line0, alnum);
    } else if c == '\'' && !Separator(text, i0, alnum) {
      assert Scan(text, i0, line0, Code, alnum) == Scan(text, i0 + 1, line0, Chr, alnum);
      line := line0;
      i := SkipChar(text, i0 + 1, line0, alnum);
    } else {
      i, line := SkipOther(text, i0, line0, alnum);
    }
  }

  /** `cpp_string_newlines`: the index-jumping lexer reports what the machine reports. */
  method CppStringNewlines(text: string, alnum: char -> bool) returns (bad: seq<nat>)
    ensures bad == Lines(Reports(text, alnum))
  {
    bad := [];
    var i: nat, line: nat := 0, 1;
    ghost var reported: seq<Report> := [];
    while i < |text|
      invariant bad == Lines(reported)
      invariant Reports(text, alnum) == reported + Scan(text, i, line, Code, alnum)
      decreases |text| - i
    {
      var next, line', open := Token(text, i, line, alnum);
      if open {
        var r := Report(line, i);
        LinesAppend(reported, [r]);
        assert reported + ([r] + Scan(text, next, line', Code, alnum)) == reported + [r] + Scan(text, next, line', Code, alnum);
        bad := bad + [line];
        reported := reported + [r];
      }
      i, line := next, line';
    }
  }
}
