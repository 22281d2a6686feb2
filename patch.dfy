/** The pure part of the patch engine (src/edit-processor.ts, src/apply-edits.ts): the
    line splice `[...lines.slice(0, start), ...newLines, ...lines.slice(end)]` with
    JavaScript's `slice` semantics, the order edits are applied in, and the
    lines-changed metric. */
module Patch {
  import opened Strings
  import opened Edits
  import StableSort

  /** How `slice` reads an index against a length `n`: a negative index counts from the
      end, and the result is clamped to `[0, n]`. */
  function RelIndex(k: int, n: nat): (r: nat)
    ensures r <= n
    ensures 0 <= k <= n ==> r == k
    ensures k < 0 ==> r == if n + k < 0 then 0 else n + k
  {
    if k < 0 then (if n + k < 0 then 0 else n + k) else if k > n then n else k
  }

  /** `s.slice(0, to)`. */
  function SliceTo<T>(s: seq<T>, to: int): seq<T>
  {
    s[..RelIndex(to, |s|)]
  }

  /** `s.slice(from)`. */
  function SliceFrom<T>(s: seq<T>, from: int): seq<T>
  {
    s[RelIndex(from, |s|)..]
  }

  /** `code.split("\n")`: the lines an edit inserts. */
  function NewLines(code: string): (r: seq<string>)
    ensures |r| == Count(code, '\n') + 1
  {
    Split(code, '\n')
  }

  /** The 0-based index the splice starts at: `atLine - 1` or `fromLineNumber - 1`. */
  function StartIndex(c: Change): int
    requires IsLineEdit(c)
  {
    if c.Addition? then c.atLine - 1 else c.fromLine - 1
  }

  /** The index the kept suffix starts at: `atLine - 1` or `toLineNumber`. */
  function EndIndex(c: Change): int
    requires IsLineEdit(c)
  {
    if c.Addition? then c.atLine - 1 else c.toLine
  }

  /** `[...lines.slice(0, start), ...ins, ...lines.slice(end)]`. */
  function Splice(lines: seq<string>, start: int, end: int, ins: seq<string>): seq<string>
  {
    SliceTo(lines, start) + ins + SliceFrom(lines, end)
  }

  /** The buffer after one line edit. */
  function ApplyEdit(lines: seq<string>, e: Edit): seq<string>
    requires IsLineEdit(e.change)
  {
    Splice(lines, StartIndex(e.change), EndIndex(e.change), NewLines(e.code))
  }

  /** An edit whose range lies inside the buffer it is applied to. */
  predicate InRange(e: Edit, n: nat)
  {
    IsLineEdit(e.change) && 0 <= StartIndex(e.change) <= EndIndex(e.change) <= n
  }

  predicate AllLineEdits(es: seq<Edit>)
  {
    forall i :: 0 <= i < |es| ==> IsLineEdit(es[i].change)
  }

  predicate AllInRange(es: seq<Edit>, n: nat)
    ensures AllInRange(es, n) ==> AllLineEdits(es)
  {
    forall i :: 0 <= i < |es| ==> InRange(es[i], n)
  }

  /** A splice inside the buffer keeps the lines before and after the range. */
  lemma SpliceInRange(lines: seq<string>, start: int, end: int, ins: seq<string>)
    requires 0 <= start <= end <= |lines|
    ensures Splice(lines, start, end, ins) == lines[..start] + ins + lines[end..]
    ensures |Splice(lines, start, end, ins)| == |lines| - (end - start) + |ins|
  {
  }

  /** The central fact behind the ordering: a splice starting at index `s` leaves the lines
      `[0, s)` as they were, whatever it deletes or inserts. */
  lemma SplicePrefixUnchanged(lines: seq<string>, start: int, end: int, ins: seq<string>)
    requires 0 <= start <= |lines|
    ensures |Splice(lines, start, end, ins)| >= start
    ensures Splice(lines, start, end, ins)[..start] == lines[..start]
  {
    assert SliceTo(lines, start) == lines[..start];
  }

  /** An addition at `atLine` in `1..N+1` inserts the new lines before old line `atLine`. */
  lemma AdditionInserts(lines: seq<string>, e: Edit)
    requires e.change.Addition? && 1 <= e.change.atLine <= |lines| + 1
    ensures var r, n := ApplyEdit(lines, e), e.change.atLine;
      && r == lines[..n - 1] + NewLines(e.code) + lines[n - 1..]
      && |r| == |lines| + Count(e.code, '\n') + 1
  {
  }

  /** A replacement of `[from, to]` inside the buffer swaps exactly those lines. */
  lemma ReplacementReplaces(lines: seq<string>, e: Edit)
    requires e.change.Replacement? && 1 <= e.change.fromLine <= e.change.toLine <= |lines|
    ensures var r, f, t := ApplyEdit(lines, e), e.change.fromLine, e.change.toLine;
      && r == lines[..f - 1] + NewLines(e.code) + lines[t..]
      && |r| == |lines| - (t - f + 1) + Count(e.code, '\n') + 1
  {
  }

  /** Line number 0 is not rejected: `slice(0, -1)` and `slice(-1)` count from the end,
      so an addition at line 0 lands before the last line of a non-empty buffer. */
  lemma AdditionAtZeroLandsBeforeLastLine(lines: seq<string>, e: Edit)
    requires |lines| > 0 && e.change == Addition(0)
    ensures ApplyEdit(lines, e) == lines[..|lines| - 1] + NewLines(e.code) + lines[|lines| - 1..]
  {
  }

  /** The key edits are sorted by: `atLine` for an addition, `fromLineNumber` otherwise. */
  function StartLine(e: Edit): int
  {
    match e.change
    case Addition(n) => n
    case Replacement(f, _) => f
    case _ => 0
  }

  /** `sortEdits`: descending by start line, stable on ties. */
  function SortEdits(es: seq<Edit>): seq<Edit>
  {
    StableSort.SortDesc(es, StartLine)
  }

  /** The sort puts the largest start line first, is a permutation, and keeps arrival order
      among edits with the same start line. */
  lemma SortEditsSpec(es: seq<Edit>)
    ensures forall i, j :: 0 <= i < j < |es| ==> StartLine(SortEdits(es)[i]) >= StartLine(SortEdits(es)[j])
    ensures multiset(SortEdits(es)) == multiset(es)
    ensures forall k :: StableSort.WithKey(SortEdits(es), StartLine, k) == StableSort.WithKey(es, StartLine, k)
  {
    StableSort.SortIsDescending(es, StartLine);
    StableSort.SortIsPermutation(es, StartLine);
    forall k ensures StableSort.WithKey(SortEdits(es), StartLine, k) == StableSort.WithKey(es, StartLine, k) {
      StableSort.SortIsStable(es, StartLine, k);
    }
  }

  /** Applies edits one after another, each against the buffer the previous left. */
  function ApplyAll(buf: seq<string>, es: seq<Edit>): seq<string>
    requires AllLineEdits(es)
    decreases |es|
  {
    if es == [] then buf else ApplyAll(ApplyEdit(buf, es[0]), es[1..])
  }

  /** Edits ordered bottom to top without overlap: each edit ends at or before the start
      of every edit applied before it. */
  predicate BottomToTop(es: seq<Edit>)
    requires AllLineEdits(es)
  {
    forall i, j :: 0 <= i < j < |es| ==> EndIndex(es[j].change) <= StartIndex(es[i].change)
  }

  /** The result every edit would give if each addressed the ORIGINAL numbering of `buf`:
      the highest edit's splice, with the part above it patched by the others. */
  function AgainstOriginal(buf: seq<string>, es: seq<Edit>): seq<string>
    requires AllInRange(es, |buf|)
    decreases |es|
  {
    if es == [] then buf
    else
      assert InRange(es[0], |buf|);
      var s := StartIndex(es[0].change);
      var rest := es[1..];
      if AllInRange(rest, s) then
        AgainstOriginal(buf[..s], rest) + NewLines(es[0].code) + buf[EndIndex(es[0].change)..]
      else ApplyAll(buf, es)
  }

  lemma {:induction false} ApplyAllOnPrefix(p: seq<string>, q: seq<string>, es: seq<Edit>)
    requires AllInRange(es, |p|)
    requires BottomToTop(es)
    ensures ApplyAll(p + q, es) == ApplyAll(p, es) + q
    decreases |es|
  {
    if es != [] {
      var e := es[0];
      var s, t := StartIndex(e.change), EndIndex(e.change);
      SpliceInRange(p + q, s, t, NewLines(e.code));
      SpliceInRange(p, s, t, NewLines(e.code));
      assert (p + q)[..s] == p[..s];
      assert (p + q)[t..] == p[t..] + q;
      var p' := ApplyEdit(p, e);
      assert ApplyEdit(p + q, e) == p' + q;
      forall i | 0 <= i < |es[1..]| ensures InRange(es[1..][i], |p'|) {
        assert es[1..][i] == es[i + 1];
      }
      ApplyAllOnPrefix(p', q, es[1..]);
    }
  }

  /** Applying bottom-to-top edits one after another gives the same file as applying every
      edit against the original line numbers: no edit's numbers drift. */
  lemma {:induction false} BottomToTopMatchesOriginalNumbering(buf: seq<string>, es: seq<Edit>)
    requires AllInRange(es, |buf|)
    requires BottomToTop(es)
    ensures ApplyAll(buf, es) == AgainstOriginal(buf, es)
    decreases |es|
  {
    if es != [] {
      var e := es[0];
      var s, t := StartIndex(e.change), EndIndex(e.change);
      var rest := es[1..];
      forall i | 0 <= i < |rest| ensures InRange(rest[i], s) {
        assert rest[i] == es[i + 1];
      }
      SpliceInRange(buf, s, t, NewLines(e.code));
      assert ApplyEdit(buf, e) == buf[..s] + (NewLines(e.code) + buf[t..]);
      assert BottomToTop(rest) by {
        forall i, j | 0 <= i < j < |rest| ensures EndIndex(rest[j].change) <= StartIndex(rest[i].change) {
          assert rest[i] == es[i + 1] && rest[j] == es[j + 1];
        }
      }
      ApplyAllOnPrefix(buf[..s], NewLines(e.code) + buf[t..], rest);
      BottomToTopMatchesOriginalNumbering(buf[..s], rest);
    }
  }

  /** When an edit's turn comes, the lines it addresses are still the original ones:
      every edit applied before it started at or below its end. */
  lemma {:induction false} PendingEditSeesOriginalLines(buf: seq<string>, es: seq<Edit>, j: nat)
    requires j < |es|
    requires AllInRange(es, |buf|)
    requires BottomToTop(es)
    ensures var before := ApplyAll(buf, es[..j]);
      |before| >= EndIndex(es[j].change) &&
      before[..EndIndex(es[j].change)] == buf[..EndIndex(es[j].change)]
  {
    var t := EndIndex(es[j].change);
    var done := es[..j];
    forall i | 0 <= i < |done| ensures InRange(done[i], |buf|) && StartIndex(done[i].change) >= t {
      assert done[i] == es[i];
      assert StartIndex(es[i].change) >= t;
    }
    assert BottomToTop(done) by {
      forall a, b | 0 <= a < b < |done| ensures EndIndex(done[b].change) <= StartIndex(done[a].change) {
        assert done[a] == es[a] && done[b] == es[b];
      }
    }
    assert buf == buf[..t] + buf[t..];
    // every edit applied so far lies at or below line index t
    ApplyAllAbove(buf[..t], buf[t..], done, t);
  }

  lemma {:induction false} ApplyAllAbove(p: seq<string>, q: seq<string>, es: seq<Edit>, t: nat)
    requires |p| == t
    requires AllInRange(es, |p| + |q|)
    requires forall i :: 0 <= i < |es| ==> StartIndex(es[i].change) >= t
    requires BottomToTop(es)
    ensures |ApplyAll(p + q, es)| >= t && ApplyAll(p + q, es)[..t] == p
    decreases |es|
  {
    if es != [] {
      var e := es[0];
      var s, u := StartIndex(e.change), EndIndex(e.change);
      SpliceInRange(p + q, s, u, NewLines(e.code));
      var b := ApplyEdit(p + q, e);
      assert b == (p + q)[..s] + NewLines(e.code) + (p + q)[u..];
      assert b[..t] == p;
      var rest := es[1..];
      forall i | 0 <= i < |rest| ensures InRange(rest[i], |p| + |b[t..]|) && StartIndex(rest[i].change) >= t {
        assert rest[i] == es[i + 1];
      }
      assert BottomToTop(rest) by {
        forall i, k | 0 <= i < k < |rest| ensures EndIndex(rest[k].change) <= StartIndex(rest[i].change) {
          assert rest[i] == es[i + 1] && rest[k] == es[k + 1];
        }
      }
      assert p + b[t..] == b;
      ApplyAllAbove(p, b[t..], rest, t);
    }
  }

  /** The lines-changed count of one edit: the new line count for an addition, the
      difference between new and lines line counts for a replacement, 0 for anything else. */
  function LinesChanged(e: Edit): int
  {
    match e.change
    case Addition(_) => |NewLines(e.code)|
    case Replacement(f, t) =>
      var d := |NewLines(e.code)| - (t - f + 1);
      if d < 0 then -d else d
    case _ => 0
  }

  /** `calculateTotalLinesChanged`: a left-to-right reduce adding the per-edit counts. */
  function TotalLinesChanged(es: seq<Edit>): (r: int)
    ensures r >= 0
    ensures es != [] ==> r >= LinesChanged(es[|es| - 1])
  {
    if es == [] then 0 else TotalLinesChanged(es[..|es| - 1]) + LinesChanged(es[|es| - 1])
  }

  lemma {:induction false} TotalIsSum(es: seq<Edit>)
    ensures TotalLinesChanged(es) == StableSort.SumBy(es, LinesChanged)
  {
    if es != [] {
      TotalIsSum(es[..|es| - 1]);
    }
  }

  /** For an edit inside the buffer, its count is the change in the buffer's length. */
  lemma LinesChangedIsLengthChange(buf: seq<string>, e: Edit)
    requires InRange(e, |buf|)
    ensures var d := |ApplyEdit(buf, e)| - |buf|; LinesChanged(e) == if d < 0 then -d else d
  {
    SpliceInRange(buf, StartIndex(e.change), EndIndex(e.change), NewLines(e.code));
  }

  /** The total is the same whichever order the edits are listed in. */
  lemma TotalIgnoresOrder(es: seq<Edit>)
    ensures TotalLinesChanged(SortEdits(es)) == TotalLinesChanged(es)
  {
    StableSort.SortKeepsSum(es, StartLine, LinesChanged);
    TotalIsSum(es);
    TotalIsSum(SortEdits(es));
  }
}
