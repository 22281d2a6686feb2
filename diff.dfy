/** The diff preview `printColoredDiff` (src/edit-processor.ts:195-226, the same code in
    src/apply-edits.ts:7-34): up to three lines of context before the change, the removed
    lines, the added lines, and up to three lines of context after. The printed lines are
    returned instead of written to the console; colour is not modelled. */
module Diff {

  datatype DiffLine = Context(text: string) | Removed(text: string) | Added(text: string)

  const Padding: int := 3

  function Min(a: int, b: int): int { if a <= b then a else b }
  function Max(a: int, b: int): int { if a >= b then a else b }

  /** `${lines[i]}`: an index outside the array reads `undefined`. */
  function LineAt(lines: seq<string>, i: int): string
  {
    if 0 <= i < |lines| then lines[i] else "undefined"
  }

  /** What the first loop prints for index `i`. */
  function FirstPassLine(lines: seq<string>, start: int, end: int, i: int): seq<DiffLine>
  {
    if start <= i < end then [Removed(LineAt(lines, i))]
    else if start - Padding <= i < start then [Context(LineAt(lines, i))]
    else []
  }

  /** What the first loop prints for the indices `[lo, i)`. */
  function FirstPass(lines: seq<string>, start: int, end: int, lo: int, i: int): seq<DiffLine>
    decreases i - lo
  {
    if i <= lo then [] else FirstPass(lines, start, end, lo, i - 1) + FirstPassLine(lines, start, end, i - 1)
  }

  /** The added lines, in order. */
  function AddedLines(newLines: seq<string>): (r: seq<DiffLine>)
    ensures |r| == |newLines|
  {
    if newLines == [] then [] else AddedLines(newLines[..|newLines| - 1]) + [Added(newLines[|newLines| - 1])]
  }

  /** What the last loop prints for the indices `[from, i)`. */
  function Trailing(lines: seq<string>, from: int, i: int): seq<DiffLine>
    decreases i - from
  {
    if i <= from then [] else Trailing(lines, from, i - 1) + [Context(LineAt(lines, i - 1))]
  }

  /** Everything the preview prints, for any indices, including out-of-range ones. */
  function Render(lines: seq<string>, newLines: seq<string>, start: int, end: int): seq<DiffLine>
  {
    FirstPass(lines, start, end, Max(0, start - Padding), Min(|lines|, end + Padding))
    + AddedLines(newLines)
    + Trailing(lines, end, Min(|lines|, end + Padding))
  }

  /** `lines[a..b]`, each line tagged by `tag`. */
  function Run(lines: seq<string>, a: int, b: int, removed: bool): (r: seq<DiffLine>)
    requires 0 <= a && b <= |lines|
    ensures |r| == if b <= a then 0 else b - a
    ensures forall k :: 0 <= k < |r| ==> r[k] == (if removed then Removed(lines[a + k]) else Context(lines[a + k]))
    decreases b - a
  {
    if b <= a then []
    else Run(lines, a, b - 1, removed) + [if removed then Removed(lines[b - 1]) else Context(lines[b - 1])]
  }

  /** The preview as its three rules state it, for `0 <= start <= end`: the context lines
      `[max(0, start-3), min(start, N))`, the removed lines `[start, min(end, N))`, the added
      lines, and the context lines `[end, min(N, end+3))`. */
  function Window(lines: seq<string>, newLines: seq<string>, start: int, end: int): seq<DiffLine>
    requires 0 <= start <= end
  {
    var n := |lines|;
    Run(lines, Max(0, start - Padding), Min(start, n), false)
    + Run(lines, start, Min(end, n), true)
    + AddedLines(newLines)
    + Run(lines, end, Min(n, end + Padding), false)
  }

  lemma {:induction false} FirstPassIsRuns(lines: seq<string>, start: int, end: int, i: int)
    requires 0 <= start <= end
    requires Max(0, start - Padding) <= i <= |lines|
    ensures FirstPass(lines, start, end, Max(0, start - Padding), i)
         == Run(lines, Max(0, start - Padding), Min(start, i), false) + Run(lines, start, Min(end, i), true)
    decreases i
  {
    var lo := Max(0, start - Padding);
    if i > lo {
      FirstPassIsRuns(lines, start, end, i - 1);
      var j := i - 1;
      assert FirstPass(lines, start, end, lo, i) == FirstPass(lines, start, end, lo, j) + FirstPassLine(lines, start, end, j);
      if j < start {
        assert FirstPassLine(lines, start, end, j) == [Context(lines[j])];
        assert Run(lines, lo, i, false) == Run(lines, lo, j, false) + [Context(lines[j])];
        assert Min(end, i) <= start && Min(end, j) <= start;
      } else if j < end {
        assert FirstPassLine(lines, start, end, j) == [Removed(lines[j])];
        assert Run(lines, start, i, true) == Run(lines, start, j, true) + [Removed(lines[j])];
      } else {
        assert FirstPassLine(lines, start, end, j) == [];
      }
    }
  }

  lemma {:induction false} TrailingIsRun(lines: seq<string>, from: int, i: int)
    requires 0 <= from && i <= |lines|
    ensures Trailing(lines, from, i) == Run(lines, from, i, false)
    decreases i - from
  {
    if i > from {
      TrailingIsRun(lines, from, i - 1);
    }
  }

  /** For a range that starts at or after 0 and does not end before it starts, the preview
      is exactly the window the three rules describe, so at most three context lines
      come before and after. */
  lemma RenderIsWindow(lines: seq<string>, newLines: seq<string>, start: int, end: int)
    requires 0 <= start <= end
    ensures Render(lines, newLines, start, end) == Window(lines, newLines, start, end)
    ensures |Run(lines, Max(0, start - Padding), Min(start, |lines|), false)| <= Padding
    ensures |Run(lines, end, Min(|lines|, end + Padding), false)| <= Padding
  {
    var n := |lines|;
    var lo, hi := Max(0, start - Padding), Min(n, end + Padding);
    if lo <= hi {
      FirstPassIsRuns(lines, start, end, hi);
      assert Min(start, hi) == Min(start, n);
      assert Min(end, hi) == Min(end, n);
    } else {
      assert Min(start, n) <= lo && Min(end, n) <= start;
    }
    if end <= hi {
      TrailingIsRun(lines, end, hi);
    }
  }

  /** `printColoredDiff`: the three loops of the source, collecting the printed lines. */
  method PrintColoredDiff(oldLines: seq<string>, newLines: seq<string>, startLine: int, endLine: int)
    returns (out: seq<DiffLine>)
    ensures out == Render(oldLines, newLines, startLine, endLine)
    ensures 0 <= startLine <= endLine ==> out == Window(oldLines, newLines, startLine, endLine)
  {
    var hi := Min(|oldLines|, endLine + Padding);
    var first := PrintFirstLoop(oldLines, startLine, endLine);
    var added := PrintAddedLines(newLines);
    var trailing := PrintTrailingLoop(oldLines, endLine, hi);
    out := first + added + trailing;
    if 0 <= startLine <= endLine {
      RenderIsWindow(oldLines, newLines, startLine, endLine);
    }
  }

  /** The first loop: removed lines in the range, context lines just before it. */
  method PrintFirstLoop(oldLines: seq<string>, startLine: int, endLine: int) returns (out: seq<DiffLine>)
    ensures out == FirstPass(oldLines, startLine, endLine, Max(0, startLine - Padding), Min(|oldLines|, endLine + Padding))
  {
    var lo := Max(0, startLine - Padding);
    var hi := Min(|oldLines|, endLine + Padding);
    out := [];
    var i := lo;
    while i < hi
      invariant lo <= i && (lo <= hi ==> i <= hi) && (lo > hi ==> i == lo)
      invariant out == FirstPass(oldLines, startLine, endLine, lo, i)
    {
      if i >= startLine && i < endLine {
        out := out + [Removed(LineAt(oldLines, i))];
      } else if i >= startLine - Padding && i < startLine {
        out := out + [Context(LineAt(oldLines, i))];
      }
      i := i + 1;
    }
  }

  /** The second loop: every new line. */
  method PrintAddedLines(newLines: seq<string>) returns (out: seq<DiffLine>)
    ensures out == AddedLines(newLines)
  {
    out := [];
    for k := 0 to |newLines|
      invariant out == AddedLines(newLines[..k])
    {
      assert newLines[..k + 1][..k] == newLines[..k];
      out := out + [Added(newLines[k])];
    }
    assert newLines[..|newLines|] == newLines;
  }

  /** The third loop: context lines from the end of the range. */
  method PrintTrailingLoop(oldLines: seq<string>, endLine: int, hi: int) returns (out: seq<DiffLine>)
    ensures out == Trailing(oldLines, endLine, hi)
  {
    out := [];
    var i := endLine;
    while i < hi
      invariant endLine <= i && (endLine <= hi ==> i <= hi) && (endLine > hi ==> i == endLine)
      invariant out == Trailing(oldLines, endLine, i)
    {
      out := out + [Context(LineAt(oldLines, i))];
      i := i + 1;
    }
  }
}
