/** Forgiving configuration loading (internal/config/forgiving.go): broken blocks are commented
    out, one per parse error, until the rest parses. The HCL parser and the regular expressions
    are parameters. */
module Salvage {
  import opened Prelude
  import opened Strings

  const MARKER: string := "# [SKIPPED] "
  const MAX_ITERATIONS: nat := 50

  /** strings.TrimSpace, isBlockStart and extractErrorLine. */
  datatype Lexer = Lexer(
    trim: string -> string, isBlockStart: string -> bool, errorLine: string -> int)

  /** Line numbers are 1-based; `endLine` is one past the last line when no block end was found. */
  datatype SkippedBlock = SkippedBlock(
    startLine: int, endLine: int, reason: string, content: string)

  function Lines(text: string): (ls: seq<string>)
    ensures |ls| >= 1
  {
    Split(text, '\n')
  }

  function TruncateReason(reason: string): (r: string)
    ensures |r| <= 100
    ensures 0 < |Lines(reason)[0]| <= 100 ==> r == Lines(reason)[0]
    ensures |Lines(reason)[0]| > 100 ==> r == Lines(reason)[0][..97] + "..."
  {
    var first := Lines(reason)[0];
    var r := if first == "" then reason else first;
    if |r| > 100 then r[..97] + "..." else r
  }

  // ----- Finding the block -----

  predicate StartsBlock(lx: Lexer, line: string) {
    lx.isBlockStart(lx.trim(line))
  }

  predicate EndsPrevious(lx: Lexer, line: string) {
    !StartsBlock(lx, line) && (lx.trim(line) == "" || lx.trim(line) == "}")
  }

  /** Searching backwards from the error line `e` (0-based): the nearest block start, or the line
      after the nearest blank line or closing brace, whichever comes first. */
  ghost predicate IsStart(lx: Lexer, lines: seq<string>, e: int, s: int) {
    0 <= s <= e < |lines|
    && (forall k :: s < k < e ==> !StartsBlock(lx, lines[k]) && !EndsPrevious(lx, lines[k]))
    && (s < e ==> !EndsPrevious(lx, lines[s]))
    && (s == 0 || (s < e && StartsBlock(lx, lines[s])) || EndsPrevious(lx, lines[s - 1]))
  }

  /** Opening minus closing braces over lines [lo, hi). */
  function Balance(lines: seq<string>, lo: int, hi: int): int
    requires 0 <= lo <= hi <= |lines|
    decreases hi - lo
  {
    if lo == hi then 0
    else Balance(lines, lo, hi - 1) + Count(lines[hi - 1], '{') - Count(lines[hi - 1], '}')
  }

  predicate Closes(lines: seq<string>, from: int, k: int)
    requires 0 <= from <= k < |lines|
  {
    Balance(lines, from, k + 1) <= 0 && '}' in lines[k]
  }

  /** Searching forwards from the error line: the first line that brings the braces back into
      balance with a closing brace, or the end of the text. */
  ghost predicate IsEnd(lines: seq<string>, e: int, t: int) {
    0 <= e <= t <= |lines| && e < |lines|
    && (forall k :: e <= k < t ==> !Closes(lines, e, k))
    && (t < |lines| ==> Closes(lines, e, t))
  }

  function Commented(lines: seq<string>, s: int, t: int): (r: seq<string>)
    ensures |r| == |lines|
    ensures forall i :: 0 <= i < |lines| ==>
              r[i] == if s <= i <= t then MARKER + lines[i] else lines[i]
  {
    seq(|lines|, i requires 0 <= i < |lines| =>
                   if s <= i <= t then MARKER + lines[i] else lines[i])
  }

  function Last(errorLine: int, count: nat): int {
    (if errorLine > count then count else errorLine) - 1
  }

  method FindStart(lx: Lexer, lines: seq<string>, e: int) returns (s: int)
    requires 0 <= e < |lines|
    ensures IsStart(lx, lines, e, s)
  {
    s := e;
    while s > 0
      invariant 0 <= s <= e
      invariant forall k :: s <= k < e ==>
                  !StartsBlock(lx, lines[k]) && !EndsPrevious(lx, lines[k])
    {
      var line := lx.trim(lines[s - 1]);
      if lx.isBlockStart(line) {
        s := s - 1;
        break;
      }
      if line == "" || line == "}" {
        break;
      }
      s := s - 1;
    }
  }

  method FindEnd(lines: seq<string>, e: int) returns (t: int)
    requires 0 <= e < |lines|
    ensures IsEnd(lines, e, t)
  {
    t := e;
    var braces := 0;
    while t < |lines|
      invariant e <= t <= |lines|
      invariant braces == Balance(lines, e, t)
      invariant forall k :: e <= k < t ==> !Closes(lines, e, k)
    {
      braces := braces + Count(lines[t], '{') - Count(lines[t], '}');
      if braces <= 0 && '}' in lines[t] {
        break;
      }
      t := t + 1;
    }
  }

  /** The block that gets commented out for an error line. */
  ghost predicate IsBlock(lx: Lexer, lines: seq<string>, errorLine: int, s: int, t: int) {
    IsStart(lx, lines, Last(errorLine, |lines|), s) && IsEnd(lines, Last(errorLine, |lines|), t)
  }

  /** There is just one such block. */
  lemma BlockUnique(
    lx: Lexer, lines: seq<string>, errorLine: int, s: int, t: int, s': int, t': int)
    requires IsBlock(lx, lines, errorLine, s, t) && IsBlock(lx, lines, errorLine, s', t')
    ensures s == s' && t == t'
  {
    var e := Last(errorLine, |lines|);
    StartNotBefore(lx, lines, e, s, s');
    StartNotBefore(lx, lines, e, s', s);
  }

  lemma StartNotBefore(lx: Lexer, lines: seq<string>, e: int, s: int, s': int)
    requires IsStart(lx, lines, e, s) && IsStart(lx, lines, e, s')
    ensures s >= s'
  {
  }

  function BlockText(lines: seq<string>, s: int, t: int): string {
    if 0 <= s <= t < |lines| then Join(lines[s..t + 1], '\n') else ""
  }

  method FindBlock(lx: Lexer, lines: seq<string>, errorLine: int) returns (s: int, t: int)
    requires errorLine >= 1 && lines != []
    ensures IsBlock(lx, lines, errorLine, s, t)
    ensures 0 <= s <= Last(errorLine, |lines|) <= t <= |lines|
  {
    s := FindStart(lx, lines, Last(errorLine, |lines|));
    t := FindEnd(lines, Last(errorLine, |lines|));
  }

  /** LoadForgiving never passes an error line below 1. */
  method CommentOutBlock(lx: Lexer, hcl: string, errorLine: int, reason: string)
    returns (text: string, skipped: SkippedBlock)
    requires errorLine >= 1
    ensures IsBlock(lx, Lines(hcl), errorLine, skipped.startLine - 1, skipped.endLine - 1)
    ensures Lines(text) == Commented(Lines(hcl), skipped.startLine - 1, skipped.endLine - 1)
    ensures skipped.reason == TruncateReason(reason)
    ensures skipped.content
         == BlockText(Lines(hcl), skipped.startLine - 1, skipped.endLine - 1)
    ensures text != hcl
  {
    var lines := Split(hcl, '\n');
    var s, t := FindBlock(lx, lines, errorLine);
    skipped := SkippedBlock(s + 1, t + 1, TruncateReason(reason), BlockText(lines, s, t));
    var out := CommentLines(lines, s, t);
    text := Join(out, '\n');
    CommentedSplits(hcl, s, t);
    CommentingChanges(hcl, s, Last(errorLine, |lines|), t);
  }

  lemma CommentingChanges(hcl: string, s: int, e: int, t: int)
    requires 0 <= s <= e <= t && e < |Lines(hcl)|
    ensures Join(Commented(Lines(hcl), s, t), '\n') != hcl
  {
    CommentedSplits(hcl, s, t);
    assert |Commented(Lines(hcl), s, t)[e]| > |Lines(hcl)[e]|;
  }

  method CommentLines(lines: seq<string>, s: int, t: int) returns (out: seq<string>)
    requires 0 <= s <= t <= |lines|
    ensures out == Commented(lines, s, t)
  {
    out := lines;
    var i := s;
    while i <= t && i < |lines|
      invariant s <= i <= |lines| && i <= t + 1
      invariant out == Commented(lines, s, i - 1)
    {
      out := out[i := MARKER + out[i]];
      i := i + 1;
    }
  }

  lemma CommentedSplits(hcl: string, s: int, t: int)
    ensures Lines(Join(Commented(Lines(hcl), s, t), '\n')) == Commented(Lines(hcl), s, t)
  {
    var lines := Lines(hcl);
    var out := Commented(lines, s, t);
    assert '\n' !in MARKER;
    forall i | 0 <= i < |out|
      ensures '\n' !in out[i]
    {
      assert '\n' !in lines[i];
    }
    SplitJoin(out, '\n');
  }

  // ----- Loading -----

  /** Where the returned configuration comes from. */
  datatype Outcome<C> = FromParser(config: C) | MinimalWithApi | Minimal

  datatype ParseResult<C> = Parsed(config: C) | Failed(message: string)

  datatype Fatal = CouldNotRecover | TooManyIterations

  datatype Loaded<C> = Loaded(
    outcome: Outcome<C>, salvaged: string, skipped: seq<SkippedBlock>, hadErrors: bool,
    fatal: Option<Fatal>)

  function Marks(marker: string, k: nat): string {
    if k == 0 then "" else marker + Marks(marker, k - 1)
  }

  /** The line is the original behind at most `bound` markers. */
  ghost predicate Marked(line: string, original: string, bound: nat) {
    exists k: nat :: k <= bound && line == Marks(MARKER, k) + original
  }

  ghost predicate SalvageOf(text: string, original: string, bound: nat) {
    |Lines(text)| == |Lines(original)|
    && forall i :: 0 <= i < |Lines(text)| ==> Marked(Lines(text)[i], Lines(original)[i], bound)
  }

  /** The line the loop takes a parse error to be on: the first when the message names none. */
  function ReportedLine(lx: Lexer, message: string): (line: int)
    ensures line >= 1
  {
    if lx.errorLine(message) <= 0 then 1 else lx.errorLine(message)
  }

  /** The line a message points at does not begin with the marker. */
  predicate PointsAtPlain(lx: Lexer, text: string, message: string) {
    var lines := Lines(text);
    !(MARKER <= lines[Last(ReportedLine(lx, message), |lines|)])
  }

  /** Errors are never reported on a line that was already commented out. */
  ghost predicate ReportsPlainLines<C(!new)>(lx: Lexer, tryParse: string -> ParseResult<C>) {
    forall text :: tryParse(text).Failed? ==> PointsAtPlain(lx, text, tryParse(text).message)
  }

  function PlainIn(text: string): nat {
    PlainLines(MARKER, Lines(text))
  }

  /** How many lines do not begin with the marker. */
  function PlainLines(marker: string, lines: seq<string>): (n: nat)
    ensures n <= |lines|
  {
    if lines == [] then 0
    else
      PlainLines(marker, lines[..|lines| - 1])
      + (if marker <= lines[|lines| - 1] then 0 else 1)
  }

  lemma {:induction false} FewerPlain(marker: string, lines: seq<string>, later: seq<string>)
    requires |lines| == |later|
    requires forall i :: 0 <= i < |lines| && marker <= lines[i] ==> marker <= later[i]
    ensures PlainLines(marker, later) <= PlainLines(marker, lines)
    ensures (exists i :: 0 <= i < |lines| && !(marker <= lines[i]) && marker <= later[i]) ==>
              PlainLines(marker, later) < PlainLines(marker, lines)
  {
    if lines != [] {
      FewerPlain(marker, lines[..|lines| - 1], later[..|later| - 1]);
      if i :| 0 <= i < |lines| - 1 && !(marker <= lines[i]) && marker <= later[i] {
        assert lines[..|lines| - 1][i] == lines[i] && later[..|later| - 1][i] == later[i];
      }
    }
  }

  /** Commenting out a block that holds a plain line leaves fewer of them. */
  lemma CommentedFewerPlain(lines: seq<string>, s: int, e: int, t: int)
    requires 0 <= s <= e <= t && e < |lines| && !(MARKER <= lines[e])
    ensures PlainLines(MARKER, Commented(lines, s, t)) < PlainLines(MARKER, lines)
  {
    var later := Commented(lines, s, t);
    forall i | 0 <= i < |lines| && s <= i <= t
      ensures MARKER <= later[i]
    {
      CutPrefix(MARKER, lines[i]);
    }
    FewerPlain(MARKER, lines, later);
  }

  /** One marker stands in front of each line of the block, and the other lines are unchanged. */
  ghost predicate MarksBlock(lines: seq<string>, block: SkippedBlock, later: seq<string>) {
    |later| == |lines|
    && forall i :: 0 <= i < |lines| ==>
         later[i] == if InBlock(block, i) then MARKER + lines[i] else lines[i]
  }

  /** One round: `before` does not parse, `block` is the block of the line that the failure reports,
      and `after` is `before` with that block commented out. */
  ghost predicate IsRound<C>(
    lx: Lexer, tryParse: string -> ParseResult<C>, before: string, after: string,
    block: SkippedBlock)
  {
    tryParse(before).Failed? && Reports(lx, Lines(before), tryParse(before).message, block)
    && MarksBlock(Lines(before), block, Lines(after))
  }

  /** The 0-based line `i` belongs to the block. */
  predicate InBlock(block: SkippedBlock, i: int) {
    block.startLine <= i + 1 <= block.endLine
  }

  /** The report names the block's bounds, the shortened message and the block's text; the text is
      left out when no end of the block was found. */
  ghost predicate Reports(lx: Lexer, lines: seq<string>, message: string, block: SkippedBlock)
    requires lines != []
  {
    IsBlock(lx, lines, if lx.errorLine(message) > 0 then lx.errorLine(message) else 1,
            block.startLine - 1, block.endLine - 1)
    && block.reason == TruncateReason(message)
    && (if block.endLine <= |lines|
        then Lines(block.content) == lines[block.startLine - 1..block.endLine]
        else block.content == "")
  }

  lemma BlockTextLines(text: string, s: int, t: int)
    requires 0 <= s <= t < |Lines(text)|
    ensures Lines(BlockText(Lines(text), s, t)) == Lines(text)[s..t + 1]
  {
    var block := Lines(text)[s..t + 1];
    forall i | 0 <= i < |block|
      ensures '\n' !in block[i]
    {
      assert block[i] == Lines(text)[s + i];
    }
    SplitJoin(block, '\n');
  }

  lemma MarksIsCommented(lines: seq<string>, block: SkippedBlock, later: seq<string>)
    ensures MarksBlock(lines, block, later)
        <==> later == Commented(lines, block.startLine - 1, block.endLine - 1)
  {
  }

  lemma BlockBounds(lx: Lexer, lines: seq<string>, errorLine: int, s: int, t: int)
    requires IsBlock(lx, lines, errorLine, s, t)
    ensures 0 <= s <= Last(errorLine, |lines|) <= t <= |lines| && Last(errorLine, |lines|) < |lines|
  {
  }

  lemma BlockReported(lx: Lexer, text: string, message: string, block: SkippedBlock)
    requires IsBlock(lx, Lines(text), ReportedLine(lx, message),
                     block.startLine - 1, block.endLine - 1)
    requires block.reason == TruncateReason(message)
    requires block.content == BlockText(Lines(text), block.startLine - 1, block.endLine - 1)
    ensures Reports(lx, Lines(text), message, block)
  {
    BlockBounds(lx, Lines(text), ReportedLine(lx, message), block.startLine - 1, block.endLine - 1);
    if block.endLine <= |Lines(text)| {
      BlockTextLines(text, block.startLine - 1, block.endLine - 1);
    }
  }

  /** The block around the reported line is commented out. */
  method CommentOutReported<C>(
    lx: Lexer, tryParse: string -> ParseResult<C>, working: string, message: string)
    returns (text: string, skipped: SkippedBlock)
    requires tryParse(working) == Failed(message)
    ensures text != working && IsRound(lx, tryParse, working, text, skipped)
  {
    var errorLine := lx.errorLine(message);
    if errorLine <= 0 {
      errorLine := 1;
    }
    text, skipped := CommentOutBlock(lx, working, errorLine, message);
    BlockReported(lx, working, message, skipped);
    MarksIsCommented(Lines(working), skipped, Lines(text));
  }

  lemma RoundSalvages<C>(
    lx: Lexer, tryParse: string -> ParseResult<C>, before: string, after: string,
    block: SkippedBlock, data: string, bound: nat)
    requires IsRound(lx, tryParse, before, after, block) && SalvageOf(before, data, bound)
    ensures SalvageOf(after, data, bound + 1)
  {
    MarksIsCommented(Lines(before), block, Lines(after));
    OneMoreMarker(before, after, data, block.startLine - 1, block.endLine - 1, bound);
  }

  lemma ReportedFewerPlain(
    lx: Lexer, lines: seq<string>, message: string, block: SkippedBlock, later: seq<string>, e: int)
    requires lines != [] && Reports(lx, lines, message, block) && MarksBlock(lines, block, later)
    requires e == Last(ReportedLine(lx, message), |lines|)
    ensures 0 <= e < |lines|
    ensures !(MARKER <= lines[e]) ==> PlainLines(MARKER, later) < PlainLines(MARKER, lines)
  {
    var s, t := block.startLine - 1, block.endLine - 1;
    BlockBounds(lx, lines, ReportedLine(lx, message), s, t);
    MarksIsCommented(lines, block, later);
    if !(MARKER <= lines[e]) {
      CommentedFewerPlain(lines, s, e, t);
    }
  }

  lemma RoundFewerPlain<C>(
    lx: Lexer, tryParse: string -> ParseResult<C>, before: string, after: string,
    block: SkippedBlock)
    requires IsRound(lx, tryParse, before, after, block)
    ensures PointsAtPlain(lx, before, tryParse(before).message) ==> PlainIn(after) < PlainIn(before)
  {
    var message := tryParse(before).message;
    ReportedFewerPlain(lx, Lines(before), message, block, Lines(after),
                       Last(ReportedLine(lx, message), |Lines(before)|));
  }

  /** The texts between the rounds, one round for each skipped block. */
  ghost predicate Rounds<C>(
    lx: Lexer, tryParse: string -> ParseResult<C>, texts: seq<string>, skipped: seq<SkippedBlock>)
  {
    |texts| == |skipped| + 1
    && forall i :: 0 <= i < |skipped| ==>
         IsRound(lx, tryParse, texts[i], texts[i + 1], skipped[i])
  }

  ghost predicate Salvages<C>(
    lx: Lexer, tryParse: string -> ParseResult<C>, data: string, skipped: seq<SkippedBlock>,
    salvaged: string)
  {
    exists texts :: Rounds(lx, tryParse, texts, skipped)
                    && texts[0] == data && texts[|skipped|] == salvaged
  }

  lemma RoundsSnoc<C>(
    lx: Lexer, tryParse: string -> ParseResult<C>, texts: seq<string>, skipped: seq<SkippedBlock>,
    text: string, block: SkippedBlock)
    requires Rounds(lx, tryParse, texts, skipped)
    requires IsRound(lx, tryParse, texts[|skipped|], text, block)
    ensures Rounds(lx, tryParse, texts + [text], skipped + [block])
  {
    var texts', skipped' := texts + [text], skipped + [block];
    forall i | 0 <= i < |skipped'|
      ensures IsRound(lx, tryParse, texts'[i], texts'[i + 1], skipped'[i])
    {
      assert texts'[i] == texts[i];
      if i < |skipped| {
        assert texts'[i + 1] == texts[i + 1] && skipped'[i] == skipped[i];
      } else {
        assert texts'[i + 1] == text && skipped'[i] == block;
      }
    }
  }

  lemma OneMoreRound<C>(
    lx: Lexer, tryParse: string -> ParseResult<C>, data: string, skipped: seq<SkippedBlock>,
    working: string, text: string, block: SkippedBlock)
    requires Salvages(lx, tryParse, data, skipped, working)
    requires IsRound(lx, tryParse, working, text, block)
    ensures Salvages(lx, tryParse, data, skipped + [block], text)
  {
    var texts :| Rounds(lx, tryParse, texts, skipped)
                 && texts[0] == data && texts[|skipped|] == working;
    RoundsSnoc(lx, tryParse, texts, skipped, text, block);
    assert (texts + [text])[0] == data && (texts + [text])[|skipped| + 1] == text;
  }

  /** How many of the blocks hold the 0-based line `i`. */
  function Covering(skipped: seq<SkippedBlock>, i: int): nat {
    if skipped == [] then 0
    else
      Covering(skipped[..|skipped| - 1], i)
      + (if InBlock(skipped[|skipped| - 1], i) then 1 else 0)
  }

  /** The line is the original behind exactly `k` markers. */
  ghost predicate MarkedBy(line: string, original: string, k: nat) {
    line == Marks(MARKER, k) + original
  }

  lemma MarkedByNone(line: string)
    ensures MarkedBy(line, line, 0)
  {
    assert Marks(MARKER, 0) + line == line;
  }

  lemma MarkedOnce(
    lines: seq<string>, block: SkippedBlock, later: seq<string>, i: nat, original: string, k: nat)
    requires MarksBlock(lines, block, later)
    requires i < |lines| && MarkedBy(lines[i], original, k)
    ensures |later| == |lines|
    ensures MarkedBy(later[i], original, if InBlock(block, i) then k + 1 else k)
  {
    MarkAgain(MARKER, k, original);
  }

  /** The rounds as far as they concern the lines. */
  ghost predicate MarkRounds(stages: seq<seq<string>>, skipped: seq<SkippedBlock>) {
    |stages| == |skipped| + 1
    && forall k :: 0 <= k < |skipped| ==> MarksBlock(stages[k], skipped[k], stages[k + 1])
  }

  lemma {:induction false} MarkedLine(stages: seq<seq<string>>, skipped: seq<SkippedBlock>, i: nat)
    requires MarkRounds(stages, skipped) && i < |stages[0]|
    ensures |stages[|skipped|]| == |stages[0]|
    ensures MarkedBy(stages[|skipped|][i], stages[0][i], Covering(skipped, i))
    decreases |skipped|
  {
    var n := |skipped|;
    if n == 0 {
      MarkedByNone(stages[0][i]);
    } else {
      assert MarksBlock(stages[n - 1], skipped[n - 1], stages[n - 1 + 1]);
      MarkedLine(stages[..n], skipped[..n - 1], i);
      MarkedOnce(stages[n - 1], skipped[n - 1], stages[n], i, stages[0][i],
                 Covering(skipped[..n - 1], i));
    }
  }

  lemma RoundsMark<C>(
    lx: Lexer, tryParse: string -> ParseResult<C>, texts: seq<string>, skipped: seq<SkippedBlock>)
    requires Rounds(lx, tryParse, texts, skipped)
    ensures MarkRounds(Map(texts, Lines), skipped)
  {
    var stages := Map(texts, Lines);
    forall k | 0 <= k < |skipped|
      ensures MarksBlock(stages[k], skipped[k], stages[k + 1])
    {
      assert IsRound(lx, tryParse, texts[k], texts[k + 1], skipped[k]);
    }
  }

  /** So every line of a salvage is the original behind as many markers as skipped blocks hold it; a
      line outside all of them is unchanged. */
  lemma SalvagedLine<C>(
    lx: Lexer, tryParse: string -> ParseResult<C>, data: string, skipped: seq<SkippedBlock>,
    salvaged: string, i: nat)
    requires Salvages(lx, tryParse, data, skipped, salvaged) && i < |Lines(data)|
    ensures |Lines(salvaged)| == |Lines(data)|
    ensures MarkedBy(Lines(salvaged)[i], Lines(data)[i], Covering(skipped, i))
    ensures Covering(skipped, i) == 0 ==> Lines(salvaged)[i] == Lines(data)[i]
  {
    var texts :| Rounds(lx, tryParse, texts, skipped)
                 && texts[0] == data && texts[|skipped|] == salvaged;
    RoundsMark(lx, tryParse, texts, skipped);
    MarkedLine(Map(texts, Lines), skipped, i);
    MarkedByNone(Lines(data)[i]);
  }

  /** A salvage either parses or used up its fifty rounds; the branch for lack of progress is
      never taken. What comes back is the original after one round for each skipped block, so line
      by line the original behind markers. If errors are reported on plain lines only, every round
      comments out a new line, so a text with fewer than fifty plain lines is always salvaged. */
  method LoadForgiving<C(!new)>(
    lx: Lexer, data: string, loadHCL: string -> Option<C>, tryParse: string -> ParseResult<C>)
    returns (r: Loaded<C>)
    ensures loadHCL(data).Some? ==>
              r == Loaded(FromParser(loadHCL(data).value), data, [], false, None)
    ensures loadHCL(data).None? ==>
              r.hadErrors && |r.skipped| <= MAX_ITERATIONS
              && Salvages(lx, tryParse, data, r.skipped, r.salvaged)
              && SalvageOf(r.salvaged, data, |r.skipped|)
    ensures loadHCL(data).None? && r.fatal.None? ==>
              tryParse(r.salvaged).Parsed? && r.outcome == FromParser(tryParse(r.salvaged).config)
    ensures r.fatal.Some? ==>
              r.fatal.value == TooManyIterations && r.outcome == Minimal
              && |r.skipped| == 50
    ensures ReportsPlainLines(lx, tryParse) ==>
              |r.skipped| <= PlainIn(data) && (PlainIn(data) < 50 ==> r.fatal.None?)
  {
    var first := loadHCL(data);
    if first.Some? {
      return Loaded(FromParser(first.value), data, [], false, None);
    }
    var working := data;
    var skipped: seq<SkippedBlock> := [];
    var stuck := false;
    Unmarked(data);
    assert Rounds(lx, tryParse, [data], []);
    while |skipped| < MAX_ITERATIONS && !stuck
      invariant |skipped| <= MAX_ITERATIONS && !stuck
      invariant Salvages(lx, tryParse, data, skipped, working)
      invariant SalvageOf(working, data, |skipped|)
      invariant ReportsPlainLines(lx, tryParse) ==> PlainIn(working) + |skipped| <= PlainIn(data)
      decreases MAX_ITERATIONS - |skipped|
    {
      var attempt := tryParse(working);
      if attempt.Parsed? {
        return Loaded(FromParser(attempt.config), working, skipped, true, None);
      }
      var text, block := CommentOutReported(lx, tryParse, working, attempt.message);
      stuck := text == working;
      if !stuck {
        OneMoreRound(lx, tryParse, data, skipped, working, text, block);
        RoundSalvages(lx, tryParse, working, text, block, data, |skipped|);
        RoundFewerPlain(lx, tryParse, working, text, block);
        skipped := skipped + [block];
        working := text;
      }
    }
    r := Loaded(if stuck then MinimalWithApi else Minimal, working, skipped, true,
                Some(if stuck then CouldNotRecover else TooManyIterations));
  }

  lemma Unmarked(text: string)
    ensures SalvageOf(text, text, 0)
  {
    forall i | 0 <= i < |Lines(text)|
      ensures Marked(Lines(text)[i], Lines(text)[i], 0)
    {
      assert Lines(text)[i] == Marks(MARKER, 0) + Lines(text)[i];
    }
  }

  lemma OneMoreMarker(working: string, text: string, original: string, s: int, t: int, bound: nat)
    requires SalvageOf(working, original, bound)
    requires Lines(text) == Commented(Lines(working), s, t)
    ensures SalvageOf(text, original, bound + 1)
  {
    forall i | 0 <= i < |Lines(text)|
      ensures Marked(Lines(text)[i], Lines(original)[i], bound + 1)
    {
      var before, o := Lines(working)[i], Lines(original)[i];
      var k: nat :| k <= bound && before == Marks(MARKER, k) + o;
      if s <= i <= t {
        MarkAgain(MARKER, k, o);
        assert Lines(text)[i] == Marks(MARKER, k + 1) + o;
      }
    }
  }

  lemma MarkAgain(marker: string, k: nat, line: string)
    ensures marker + (Marks(marker, k) + line) == Marks(marker, k + 1) + line
  {
  }

  // ----- Undoing -----

  function Strip(marker: string, line: string): string
    requires marker != ""
  {
    if marker <= line then Strip(marker, line[|marker|..]) else line
  }

  function StripAll(text: string): string {
    Join(Map(Lines(text), line => Strip(MARKER, line)), '\n')
  }

  lemma {:induction false} StripMarks(marker: string, k: nat, line: string)
    requires marker != ""
    ensures Strip(marker, Marks(marker, k) + line) == Strip(marker, line)
  {
    if k == 0 {
      assert Marks(marker, 0) + line == line;
    } else {
      StripMarks(marker, k - 1, line);
      assert Marks(marker, k) + line == marker + (Marks(marker, k - 1) + line);
      CutPrefix(marker, Marks(marker, k - 1) + line);
    }
  }

  lemma {:induction false} StripClean(marker: string, line: string)
    requires marker != ""
    ensures !(marker <= Strip(marker, line))
    ensures '\n' !in line ==> '\n' !in Strip(marker, line)
    ensures !(marker <= line) ==> Strip(marker, line) == line
  {
    if marker <= line {
      StripClean(marker, line[|marker|..]);
    }
  }

  /** Stripping the markers gives the original text back exactly when no original line began
      with one. */
  lemma StripRecoversIff(text: string, original: string, bound: nat)
    requires SalvageOf(text, original, bound)
    ensures StripAll(text) == original
        <==> forall i :: 0 <= i < |Lines(original)| ==> !(MARKER <= Lines(original)[i])
  {
    var stripped, os := Map(Lines(text), line => Strip(MARKER, line)), Lines(original);
    forall i | 0 <= i < |os|
      ensures stripped[i] == Strip(MARKER, os[i]) && '\n' !in stripped[i]
    {
      var k: nat :| k <= bound && Lines(text)[i] == Marks(MARKER, k) + os[i];
      StripMarks(MARKER, k, os[i]);
      StripClean(MARKER, os[i]);
    }
    SplitJoin(stripped, '\n');
    JoinSplit(original, '\n');
    if forall i :: 0 <= i < |os| ==> !(MARKER <= os[i]) {
      assert stripped == os;
    } else {
      var i :| 0 <= i < |os| && MARKER <= os[i];
      StripClean(MARKER, os[i]);
      assert stripped[i] != os[i];
    }
  }
}
