/** The patch engine of src/edit-processor.ts: a `FileManager` holding one line buffer per
    file, loaded lazily, and an `EditProcessor` that confirms streamed edits one by one,
    queues the confirmed ones, and applies them bottom to top before writing every
    buffer back. Confirmations are inputs; console output is not modelled. */
module EditEngine {
  import opened Wrappers
  import opened Strings
  import opened Edits
  import opened Disk
  import opened Patch
  import opened Diff
  import StableSort

  /** The buffers after `loadFile(path)`: a path already held is never reloaded; a missing
      file gets an empty buffer; an existing file that cannot be read gets no buffer. */
  function Loaded(files: map<string, seq<string>>, path: string, disk: Disk): map<string, seq<string>>
  {
    if path in files then files
    else if path !in disk then files[path := []]
    else match disk[path]
      case Readable(c) => files[path := Split(c, '\n')]
      case Unreadable => files
  }

  /** `getFileContent(path)`: the buffer, or an empty one when there is none. */
  function Content(files: map<string, seq<string>>, path: string): seq<string>
  {
    if path in files then files[path] else []
  }

  /** The disk after `saveAllFiles`: every buffer written back, lines joined by "\n". */
  function Saved(files: map<string, seq<string>>, disk: Disk): (d: Disk)
    ensures d.Keys == disk.Keys + files.Keys
  {
    map p | p in disk.Keys + files.Keys :: if p in files then Readable(Join(files[p], '\n')) else disk[p]
  }

  /** `writeFileSync` throws for a buffered path that exists but cannot be written: a
      directory, or a file without permission, here an `Unreadable` entry. A `Readable`
      entry is taken to be writable and a missing path creatable. */
  predicate SaveFails(files: map<string, seq<string>>, disk: Disk)
  {
    exists p :: p in files && p in disk && disk[p].Unreadable?
  }

  /** The disk after a save that stopped at a throw: every entry is either the one it had
      or a buffer written back, and no entry is lost. Which buffers were written first
      depends on the order of the `Map`, which the model does not keep. */
  predicate PartlySaved(files: map<string, seq<string>>, disk: Disk, d: Disk)
  {
    && disk.Keys <= d.Keys
    && forall p :: p in d ==>
         (p in disk && d[p] == disk[p]) ||
         (p in files && (p in disk ==> disk[p].Readable?) && d[p] == Readable(Join(files[p], '\n')))
  }

  /** Loading keeps every buffer already held, so edits made in memory survive later loads;
      a missing file reads as empty; an unreadable file reads as empty through
      `getFileContent` though it has no buffer; a readable file reads as its lines. */
  lemma LoadRules(files: map<string, seq<string>>, path: string, disk: Disk)
    ensures forall p :: p in files ==> p in Loaded(files, path, disk) && Loaded(files, path, disk)[p] == files[p]
    ensures forall p :: p != path ==> (p in Loaded(files, path, disk) <==> p in files)
    ensures path !in files && path !in disk ==> Content(Loaded(files, path, disk), path) == []
    ensures path !in files && path in disk && disk[path].Unreadable? ==>
      path !in Loaded(files, path, disk) && Content(Loaded(files, path, disk), path) == []
    ensures path !in files && path in disk && disk[path].Readable? ==>
      Content(Loaded(files, path, disk), path) == Split(disk[path].content, '\n')
  {
  }

  /** A readable file that is loaded and saved without edits is written back byte for byte. */
  lemma LoadSaveRoundTrip(path: string, disk: Disk)
    requires path in disk && disk[path].Readable?
    ensures Saved(Loaded(map[], path, disk), disk) == disk
  {
    JoinSplit(disk[path].content, '\n');
    var d := Saved(Loaded(map[], path, disk), disk);
    assert d.Keys == disk.Keys;
    forall p | p in disk ensures d[p] == disk[p] {
    }
  }

  /** The buffers after the apply loop: for each edit in turn, load its file, splice its
      buffer and store the result. */
  function ApplyToFiles(files: map<string, seq<string>>, es: seq<Edit>, disk: Disk): map<string, seq<string>>
    requires AllLineEdits(es)
    decreases |es|
  {
    if es == [] then files
    else
      var e := es[0];
      var loaded := Loaded(files, e.filename, disk);
      ApplyToFiles(loaded[e.filename := ApplyEdit(Content(loaded, e.filename), e)], es[1..], disk)
  }

  /** The edits for one file, in order. */
  function ForFile(es: seq<Edit>, f: string): (r: seq<Edit>)
    ensures AllLineEdits(es) ==> AllLineEdits(r)
    ensures forall x :: x in r ==> x in es && x.filename == f
  {
    if es == [] then []
    else (if es[0].filename == f then [es[0]] else []) + ForFile(es[1..], f)
  }

  /** Edits to different files do not interact: a file's final buffer is its loaded buffer
      with that file's own edits applied in order. */
  lemma {:induction false} FilesAreIndependent(files: map<string, seq<string>>, es: seq<Edit>, disk: Disk, f: string)
    requires AllLineEdits(es)
    requires f in files
    ensures f in ApplyToFiles(files, es, disk)
    ensures ApplyToFiles(files, es, disk)[f] == ApplyAll(files[f], ForFile(es, f))
    decreases |es|
  {
    if es != [] {
      var e := es[0];
      var loaded := Loaded(files, e.filename, disk);
      var next := loaded[e.filename := ApplyEdit(Content(loaded, e.filename), e)];
      assert ApplyToFiles(files, es, disk) == ApplyToFiles(next, es[1..], disk);
      FirstEditForFile(files, es, disk, f);
      FilesAreIndependent(next, es[1..], disk, f);
    }
  }

  /** The first edit of the queue changes `f`'s buffer exactly when it is one of `f`'s
      edits. */
  lemma FirstEditForFile(files: map<string, seq<string>>, es: seq<Edit>, disk: Disk, f: string)
    requires AllLineEdits(es) && es != [] && f in files
    ensures var e := es[0]; var loaded := Loaded(files, e.filename, disk);
      var next := loaded[e.filename := ApplyEdit(Content(loaded, e.filename), e)];
      f in next && ApplyAll(next[f], ForFile(es[1..], f)) == ApplyAll(files[f], ForFile(es, f))
  {
    if es[0].filename == f {
      FirstEditOwnFile(files, es, disk, f);
    } else {
      LoadedOther(files, es[0].filename, disk, f);
      assert ForFile(es, f) == ForFile(es[1..], f);
    }
  }

  lemma FirstEditOwnFile(files: map<string, seq<string>>, es: seq<Edit>, disk: Disk, f: string)
    requires AllLineEdits(es) && es != [] && f in files && es[0].filename == f
    ensures var e := es[0]; ApplyAll(ApplyEdit(files[f], e), ForFile(es[1..], f)) == ApplyAll(files[f], ForFile(es, f))
  {
    var e, rest := es[0], ForFile(es[1..], f);
    assert ForFile(es, f) == [e] + rest;
    assert ([e] + rest)[0] == e && ([e] + rest)[1..] == rest;
  }

  /** Two queued edits may be applied `a` then `b`: they touch different files, or `b`
      ends at or before the line where `a` starts. */
  predicate Compatible(a: Edit, b: Edit)
  {
    a.filename != b.filename || (IsLineEdit(a.change) && IsLineEdit(b.change) && EndIndex(b.change) <= StartIndex(a.change))
  }

  /** Two edits of the same file, `a` arriving before `b`, whose ranges do not overlap;
      when both start at the same line, the later one removes nothing. */
  predicate Disjoint(a: Edit, b: Edit)
  {
    a.filename == b.filename ==>
      IsLineEdit(a.change) && IsLineEdit(b.change)
      && StartIndex(a.change) <= EndIndex(a.change) && StartIndex(b.change) <= EndIndex(b.change)
      && (EndIndex(b.change) <= StartIndex(a.change) || EndIndex(a.change) <= StartIndex(b.change))
      && (StartIndex(a.change) == StartIndex(b.change) ==> EndIndex(b.change) == StartIndex(b.change))
  }

  /** Disjoint edits end up in an order where each fits below the ones applied before it. */
  lemma DisjointFitsAfterSort(a: Edit, b: Edit)
    requires Disjoint(a, b)
    ensures StableSort.FitsEitherWay(a, b, StartLine, Compatible)
  {
  }

  /** Filtering keeps a chain: one file's share of the sorted queue is bottom to top. */
  lemma {:induction false} ForFileIsBottomToTop(es: seq<Edit>, f: string)
    requires AllLineEdits(es)
    requires StableSort.Chained(es, Compatible)
    ensures BottomToTop(ForFile(es, f))
    decreases |es|
  {
    if es != [] {
      var rest := es[1..];
      assert StableSort.Chained(rest, Compatible) by {
        forall i, j | 0 <= i < j < |rest| ensures Compatible(rest[i], rest[j]) {
          assert rest[i] == es[i + 1] && rest[j] == es[j + 1];
        }
      }
      ForFileIsBottomToTop(rest, f);
      if es[0].filename == f {
        forall x | x in ForFile(rest, f) ensures EndIndex(x.change) <= StartIndex(es[0].change) {
          var p :| 0 <= p < |rest| && rest[p] == x;
          assert Compatible(es[0], es[p + 1]);
        }
        BottomToTopCons(es[0], ForFile(rest, f));
        assert ForFile(es, f) == [es[0]] + ForFile(rest, f);
      }
    }
  }

  lemma BottomToTopCons(a: Edit, r: seq<Edit>)
    requires IsLineEdit(a.change) && AllLineEdits(r) && BottomToTop(r)
    requires forall x :: x in r ==> EndIndex(x.change) <= StartIndex(a.change)
    ensures AllLineEdits([a] + r) && BottomToTop([a] + r)
  {
    var t := [a] + r;
    forall i, j | 0 <= i < j < |t| ensures EndIndex(t[j].change) <= StartIndex(t[i].change) {
      if i == 0 {
        assert t[j] in r;
      } else {
        assert t[i] == r[i - 1] && t[j] == r[j - 1];
      }
    }
  }

  /** A queue already in a bottom-to-top order for each file leaves each file as if every
      edit had addressed the file's original line numbers. */
  lemma ChainedQueueAddressesOriginalLines(files: map<string, seq<string>>, sorted: seq<Edit>, disk: Disk, f: string)
    requires AllLineEdits(sorted) && StableSort.Chained(sorted, Compatible)
    requires f in files
    requires forall e :: e in sorted && e.filename == f ==> InRange(e, |files[f]|)
    ensures AllInRange(ForFile(sorted, f), |files[f]|)
    ensures f in ApplyToFiles(files, sorted, disk)
    ensures ApplyToFiles(files, sorted, disk)[f] == AgainstOriginal(files[f], ForFile(sorted, f))
  {
    ForFileIsBottomToTop(sorted, f);
    var mine := ForFile(sorted, f);
    forall i | 0 <= i < |mine| ensures InRange(mine[i], |files[f]|) {
      assert mine[i] in sorted;
    }
    FilesAreIndependent(files, sorted, disk, f);
    BottomToTopMatchesOriginalNumbering(files[f], mine);
  }

  /** The engine's central promise: when the edits queued for a file lie inside its buffer
      and do not overlap, applying the whole queue bottom to top leaves that file exactly
      as if every edit had addressed the file's original line numbers. */
  lemma EditsAddressOriginalLines(files: map<string, seq<string>>, queue: seq<Edit>, disk: Disk, f: string)
    requires AllLineEdits(queue)
    requires f in files
    requires forall e :: e in queue && e.filename == f ==> InRange(e, |files[f]|)
    requires forall i, j :: 0 <= i < j < |queue| ==> Disjoint(queue[i], queue[j])
    ensures var sorted := Patch.SortEdits(queue);
      && AllLineEdits(sorted)
      && AllInRange(ForFile(sorted, f), |files[f]|)
      && f in ApplyToFiles(files, sorted, disk)
      && ApplyToFiles(files, sorted, disk)[f] == AgainstOriginal(files[f], ForFile(sorted, f))
  {
    var sorted := Patch.SortEdits(queue);
    SortKeepsLineEdits(queue);
    SortEditsSpec(queue);
    forall i, j | 0 <= i < j < |queue| ensures StableSort.FitsEitherWay(queue[i], queue[j], StartLine, Compatible) {
      DisjointFitsAfterSort(queue[i], queue[j]);
    }
    StableSort.SortChains(queue, StartLine, Compatible);
    forall e | e in sorted && e.filename == f ensures InRange(e, |files[f]|) {
      assert e in multiset(queue);
    }
    ChainedQueueAddressesOriginalLines(files, sorted, disk, f);
  }

  /** An addition at line 2 and a replacement of line 2, arriving in that order. */
  const TieAddition: Edit := Edit("", "f", Addition(2), "X", None)
  const TieReplacement: Edit := Edit("", "f", Replacement(2, 2), "Y", None)

  /** As written, the sort breaks ties between an addition and a replacement that start at
      the same line by arrival order. When the addition arrives first, the replacement is
      applied to the buffer the addition just shifted: it overwrites the inserted line and
      the line it was meant to replace survives. */
  lemma SameLineAdditionIsOverwritten()
    ensures Patch.SortEdits([TieAddition, TieReplacement]) == [TieAddition, TieReplacement]
    ensures ApplyAll(["a", "b", "c"], Patch.SortEdits([TieAddition, TieReplacement])) == ["a", "Y", "b", "c"]
    ensures SortEditsFixed([TieAddition, TieReplacement]) == [TieReplacement, TieAddition]
    ensures ApplyAll(["a", "b", "c"], SortEditsFixed([TieAddition, TieReplacement])) == ["a", "X", "Y", "c"]
  {
    TieSorts();
    TieAppliesAsSorted();
    TieAppliesFixed();
  }

  lemma TieSorts()
    ensures Patch.SortEdits([TieAddition, TieReplacement]) == [TieAddition, TieReplacement]
    ensures SortEditsFixed([TieAddition, TieReplacement]) == [TieReplacement, TieAddition]
  {
    var add, rep := TieAddition, TieReplacement;
    var q := [add, rep];
    assert q[..|q| - 1] == [add] && q[|q| - 1] == rep && [add][..0] == [];
    assert StableSort.SortDesc([add], StartLine) == [add];
    assert StableSort.SortDesc([add], TieBreakKey) == [add];
    assert TieBreakKey(add) == 4 && TieBreakKey(rep) == 5;
    assert StableSort.Insert(rep, [add], StartLine) == [add, rep] by {
      assert [add][1..] == [];
    }
    assert StableSort.Insert(rep, [add], TieBreakKey) == [rep, add];
  }

  lemma TieAppliesAsSorted()
    ensures ApplyAll(["a", "b", "c"], [TieAddition, TieReplacement]) == ["a", "Y", "b", "c"]
  {
    var add, rep := TieAddition, TieReplacement;
    var abc: seq<string> := ["a", "b", "c"];
    SplitNoSep("X", '\n');
    SplitNoSep("Y", '\n');
    assert SliceTo(abc, 1) == ["a"] && SliceFrom(abc, 1) == ["b", "c"];
    var once := ApplyEdit(abc, add);
    assert once == ["a", "X", "b", "c"];
    assert SliceTo(once, 1) == ["a"] && SliceFrom(once, 2) == ["b", "c"];
    assert ApplyEdit(once, rep) == ["a", "Y", "b", "c"];
    assert [add, rep][1..] == [rep] && [rep][1..] == [];
    assert ApplyAll(abc, [add, rep]) == ApplyAll(once, [rep]) == ApplyAll(ApplyEdit(once, rep), []);
  }

  lemma TieAppliesFixed()
    ensures ApplyAll(["a", "b", "c"], [TieReplacement, TieAddition]) == ["a", "X", "Y", "c"]
  {
    var add, rep := TieAddition, TieReplacement;
    var abc: seq<string> := ["a", "b", "c"];
    SplitNoSep("X", '\n');
    SplitNoSep("Y", '\n');
    assert SliceTo(abc, 1) == ["a"] && SliceFrom(abc, 2) == ["c"];
    var once := ApplyEdit(abc, rep);
    assert once == ["a", "Y", "c"];
    assert SliceTo(once, 1) == ["a"] && SliceFrom(once, 1) == ["Y", "c"];
    assert ApplyEdit(once, add) == ["a", "X", "Y", "c"];
    assert [rep, add][1..] == [add] && [add][1..] == [];
    assert ApplyAll(abc, [rep, add]) == ApplyAll(once, [add]) == ApplyAll(ApplyEdit(once, add), []);
  }

  /** The corrected sort key: start line first, and among edits starting at the same line,
      one that removes lines before one that only inserts. */
  function TieBreakKey(e: Edit): int
  {
    if IsLineEdit(e.change) then 2 * StartLine(e) + (if EndIndex(e.change) > StartIndex(e.change) then 1 else 0) else 0
  }

  /** `sortEdits` with the tie broken so that removals come first. */
  function SortEditsFixed(es: seq<Edit>): seq<Edit>
  {
    StableSort.SortDesc(es, TieBreakKey)
  }

  /** Two edits of the same file whose ranges do not overlap, in either arrival order. */
  predicate Apart(a: Edit, b: Edit)
  {
    a.filename == b.filename ==>
      IsLineEdit(a.change) && IsLineEdit(b.change)
      && StartIndex(a.change) <= EndIndex(a.change) && StartIndex(b.change) <= EndIndex(b.change)
      && (EndIndex(b.change) <= StartIndex(a.change) || EndIndex(a.change) <= StartIndex(b.change))
  }

  lemma ApartFitsAfterFixedSort(a: Edit, b: Edit)
    requires Apart(a, b)
    ensures StableSort.FitsEitherWay(a, b, TieBreakKey, Compatible)
  {
  }

  /** With the corrected sort, non-overlapping edits need no condition on their arrival
      order: every file ends as if each edit had addressed its original line numbers. */
  lemma FixedSortAddressesOriginalLines(files: map<string, seq<string>>, queue: seq<Edit>, disk: Disk, f: string)
    requires AllLineEdits(queue)
    requires f in files
    requires forall e :: e in queue && e.filename == f ==> InRange(e, |files[f]|)
    requires forall i, j :: 0 <= i < j < |queue| ==> Apart(queue[i], queue[j])
    ensures var sorted := SortEditsFixed(queue);
      && AllLineEdits(sorted)
      && AllInRange(ForFile(sorted, f), |files[f]|)
      && f in ApplyToFiles(files, sorted, disk)
      && ApplyToFiles(files, sorted, disk)[f] == AgainstOriginal(files[f], ForFile(sorted, f))
  {
    var sorted := SortEditsFixed(queue);
    StableSort.SortIsPermutation(queue, TieBreakKey);
    forall i | 0 <= i < |sorted| ensures IsLineEdit(sorted[i].change) {
      assert sorted[i] in multiset(queue);
    }
    forall i, j | 0 <= i < j < |queue| ensures StableSort.FitsEitherWay(queue[i], queue[j], TieBreakKey, Compatible) {
      ApartFitsAfterFixedSort(queue[i], queue[j]);
    }
    StableSort.SortChains(queue, TieBreakKey, Compatible);
    forall e | e in sorted && e.filename == f ensures InRange(e, |files[f]|) {
      assert e in multiset(queue);
    }
    ChainedQueueAddressesOriginalLines(files, sorted, disk, f);
  }

  class FileManager {
    var files: map<string, seq<string>>

    constructor ()
      ensures files == map[]
    {
      files := map[];
    }

    /** `loadFile`. */
    method LoadFile(path: string, disk: Disk)
      modifies this
      ensures files == Loaded(old(files), path, disk)
    {
      if path !in files {
        if path in disk {
          match disk[path]
          case Readable(c) => files := files[path := Split(c, '\n')];
          case Unreadable =>
        } else {
          files := files[path := []];
        }
      }
    }

    /** `getFileContent`. */
    function GetFileContent(path: string): (r: seq<string>)
      reads this
      ensures path in files ==> r == files[path]
      ensures path !in files ==> r == []
    {
      Content(files, path)
    }

    /** `updateFile`. */
    method UpdateFile(path: string, newContent: seq<string>)
      modifies this
      ensures files == old(files)[path := newContent]
    {
      files := files[path := newContent];
    }

    /** `saveAllFiles`: returns the disk with every buffer written back. */
    method SaveAllFiles(disk: Disk) returns (disk': Disk, thrown: bool)
      ensures thrown <==> SaveFails(files, disk)
      ensures !thrown ==> disk' == Saved(files, disk)
      ensures thrown ==> PartlySaved(files, disk, disk')
    {
      disk', thrown := disk, false;
      var pending := files.Keys;
      while pending != {}
        invariant pending <= files.Keys
        invariant disk'.Keys == disk.Keys + (files.Keys - pending)
        invariant forall p :: p in disk' ==> disk'[p] == if p in files && p !in pending then Readable(Join(files[p], '\n')) else disk[p]
        invariant forall p :: p in files && p !in pending ==> !(p in disk && disk[p].Unreadable?)
        decreases pending
      {
        var p :| p in pending;
        if p in disk && disk[p].Unreadable? {
          thrown := true;
          return;
        }
        disk' := disk'[p := Readable(Join(files[p], '\n'))];
        pending := pending - {p};
      }
    }
  }

  /** The edits a stream's packets confirm, up to packet `n`: line edits the operator
      accepted, in arrival order. */
  function ConfirmedUpTo(packets: seq<Packet>, answers: seq<bool>, n: nat): (r: seq<Edit>)
    requires n <= |packets| == |answers|
    ensures AllLineEdits(r)
  {
    if n == 0 then []
    else
      var p := packets[n - 1];
      ConfirmedUpTo(packets, answers, n - 1)
      + (if p.EditPacket? && IsLineEdit(p.edit.change) && answers[n - 1] then [p.edit] else [])
  }

  /** The buffers after the files of the edit packets up to packet `n` are loaded. */
  function LoadedUpTo(files: map<string, seq<string>>, packets: seq<Packet>, disk: Disk, n: nat): map<string, seq<string>>
    requires n <= |packets|
  {
    if n == 0 then files
    else
      var f := LoadedUpTo(files, packets, disk, n - 1);
      if packets[n - 1].EditPacket? then Loaded(f, packets[n - 1].edit.filename, disk) else f
  }

  /** Loading never puts anything but an empty buffer under a path missing from disk, and
      every file an edit packet names is loaded, confirmed or not. */
  lemma {:induction false} LoadedUpToFacts(files: map<string, seq<string>>, packets: seq<Packet>, disk: Disk, n: nat, f: string)
    requires n <= |packets|
    requires f !in disk && (f in files ==> files[f] == [])
    ensures f in LoadedUpTo(files, packets, disk, n) ==> LoadedUpTo(files, packets, disk, n)[f] == []
    ensures forall k :: 0 <= k < n && packets[k].EditPacket? && packets[k].edit.filename == f ==>
      f in LoadedUpTo(files, packets, disk, n)
  {
    if n > 0 {
      LoadedUpToFacts(files, packets, disk, n - 1, f);
      var prev := LoadedUpTo(files, packets, disk, n - 1);
      if packets[n - 1].EditPacket? {
        LoadRules(prev, packets[n - 1].edit.filename, disk);
      }
    }
  }

  lemma LoadedOther(files: map<string, seq<string>>, g: string, disk: Disk, f: string)
    requires g != f
    ensures (f in Loaded(files, g, disk)) == (f in files)
    ensures f in files ==> Loaded(files, g, disk)[f] == files[f]
  {
  }

  /** A file no queued edit names keeps its buffer through the apply loop. */
  lemma {:induction false} ApplyToFilesUntouched(files: map<string, seq<string>>, es: seq<Edit>, disk: Disk, f: string)
    requires AllLineEdits(es)
    requires forall i :: 0 <= i < |es| ==> es[i].filename != f
    ensures (f in ApplyToFiles(files, es, disk)) == (f in files)
    ensures f in files ==> ApplyToFiles(files, es, disk)[f] == files[f]
    decreases |es|
  {
    if es != [] {
      var e := es[0];
      var loaded := Loaded(files, e.filename, disk);
      LoadedOther(files, e.filename, disk, f);
      assert forall i :: 0 <= i < |es[1..]| ==> es[1..][i].filename != f by {
        forall i | 0 <= i < |es[1..]| ensures es[1..][i].filename != f {
          assert es[1..][i] == es[i + 1];
        }
      }
      ApplyToFilesUntouched(loaded[e.filename := ApplyEdit(Content(loaded, e.filename), e)], es[1..], disk, f);
    }
  }

  /** A declined edit to a file that does not exist still leaves an empty file behind when
      the other confirmed edits are applied: its file was loaded as `[]` and every buffer is
      saved. */
  lemma DeclinedEditLeavesEmptyFile(files: map<string, seq<string>>, packets: seq<Packet>, disk: Disk,
                                     queue: seq<Edit>, k: nat)
    requires k < Consumed(packets)
    requires var f := packets[k].edit.filename; f !in disk && f !in files
    requires AllLineEdits(queue)
    requires forall i :: 0 <= i < |queue| ==> queue[i].filename != packets[k].edit.filename
    ensures var f := packets[k].edit.filename;
      var loaded := LoadedUpTo(files, packets, disk, Consumed(packets));
      && f in ApplyToFiles(loaded, queue, disk)
      && Saved(ApplyToFiles(loaded, queue, disk), disk)[f] == Readable("")
  {
    var f := packets[k].edit.filename;
    var n := Consumed(packets);
    LoadedUpToFacts(files, packets, disk, n, f);
    ApplyToFilesUntouched(LoadedUpTo(files, packets, disk, n), queue, disk, f);
  }

  /** Number of packets consumed: up to and including the first `alledits` or `error`. */
  function Consumed(packets: seq<Packet>): (n: nat)
    ensures n <= |packets|
    ensures forall k :: 0 <= k < n ==> packets[k].EditPacket?
    ensures n < |packets| ==> packets[n].IsTerminal()
  {
    if packets == [] || packets[0].IsTerminal() then 0 else 1 + Consumed(packets[1..])
  }

  /** The package lists installed by the apply loop, in application order. */
  function Installs(es: seq<Edit>): seq<seq<string>>
  {
    if es == [] then []
    else
      var e := es[|es| - 1];
      Installs(es[..|es| - 1]) + PackagesOf(e)
  }

  /** The package list one applied edit installs: its `newPackages` when there are any. */
  function PackagesOf(e: Edit): seq<seq<string>>
  {
    if e.newPackages.Some? && |e.newPackages.value| > 0 then [e.newPackages.value] else []
  }

  lemma InstallsStep(es: seq<Edit>, i: nat)
    requires i < |es|
    ensures Installs(es[..i + 1]) == Installs(es[..i]) + PackagesOf(es[i])
  {
    assert es[..i + 1][..i] == es[..i];
  }

  class EditProcessor {
    const fileManager: FileManager
    var confirmedEdits: seq<Edit>

    /** Only line edits are ever confirmed. */
    ghost predicate Valid()
      reads this
    {
      AllLineEdits(confirmedEdits)
    }

    constructor ()
      ensures Valid() && fresh(fileManager)
      ensures fileManager.files == map[] && confirmedEdits == []
    {
      fileManager := new FileManager();
      confirmedEdits := [];
    }

    /** `confirmEdit`: loads the file, shows the diff against its buffer, and returns the
        operator's answer; a change that is neither an addition nor a replacement is
        refused before the diff, after its file is loaded. */
    method ConfirmEdit(e: Edit, disk: Disk, answer: bool) returns (ok: bool, preview: seq<DiffLine>)
      modifies fileManager
      ensures fileManager.files == Loaded(old(fileManager.files), e.filename, disk)
      ensures ok == (IsLineEdit(e.change) && answer)
      ensures IsLineEdit(e.change) ==> preview == Render(
        Content(fileManager.files, e.filename), NewLines(e.code), StartIndex(e.change), EndIndex(e.change))
    {
      fileManager.LoadFile(e.filename, disk);
      var content := fileManager.GetFileContent(e.filename);
      if !IsLineEdit(e.change) {
        return false, [];
      }
      preview := PrintColoredDiff(content, NewLines(e.code), StartIndex(e.change), EndIndex(e.change));
      ok := answer;
    }

    /** `sortEdits`: sorts the queue in place, largest start line first, stable. */
    method SortEdits()
      modifies this
      ensures confirmedEdits == Patch.SortEdits(old(confirmedEdits))
    {
      confirmedEdits := Patch.SortEdits(confirmedEdits);
    }

    /** `applyConfirmedEdits`: sorts the queue, computes the lines-changed total, splices
        each edit into its file's buffer (loading it if needed), then saves every buffer. */
    method ApplyConfirmedEdits(disk: Disk)
      returns (disk': Disk, totalLinesChanged: int, installs: seq<seq<string>>, thrown: bool)
      requires Valid()
      modifies this, fileManager
      ensures Valid()
      ensures confirmedEdits == Patch.SortEdits(old(confirmedEdits))
      ensures totalLinesChanged == TotalLinesChanged(old(confirmedEdits))
      ensures fileManager.files == ApplyToFiles(old(fileManager.files), confirmedEdits, disk)
      ensures installs == Installs(confirmedEdits)
      ensures thrown <==> SaveFails(fileManager.files, disk)
      ensures !thrown ==> disk' == Saved(fileManager.files, disk)
      ensures thrown ==> PartlySaved(fileManager.files, disk, disk')
    {
      SortEdits();
      SortKeepsLineEdits(old(confirmedEdits));
      totalLinesChanged := TotalLinesChanged(confirmedEdits);
      TotalIgnoresOrder(old(confirmedEdits));
      installs := ApplyQueue(confirmedEdits, disk);
      disk', thrown := fileManager.SaveAllFiles(disk);
    }

    /** The loop of `applyConfirmedEdits` over the sorted queue. */
    method ApplyQueue(sorted: seq<Edit>, disk: Disk) returns (installs: seq<seq<string>>)
      requires AllLineEdits(sorted)
      modifies fileManager
      ensures fileManager.files == ApplyToFiles(old(fileManager.files), sorted, disk)
      ensures installs == Installs(sorted)
    {
      LineEditsSuffix(sorted, 0);
      ghost var start := fileManager.files;
      installs := [];
      var i := 0;
      while i < |sorted|
        invariant 0 <= i <= |sorted|
        invariant AllLineEdits(sorted[i..])
        invariant ApplyToFiles(start, sorted, disk) == ApplyToFiles(fileManager.files, sorted[i..], disk)
        invariant installs == Installs(sorted[..i])
      {
        var installed := ApplyNext(sorted[i..], disk);
        assert sorted[i..][1..] == sorted[i + 1..] && sorted[i..][0] == sorted[i];
        InstallsStep(sorted, i);
        installs := installs + installed;
        i := i + 1;
      }
      assert sorted[..i] == sorted;
    }

    /** One pass of the apply loop, over the first edit of what is left of the queue. */
    method ApplyNext(rest: seq<Edit>, disk: Disk) returns (installed: seq<seq<string>>)
      requires AllLineEdits(rest) && rest != []
      modifies fileManager
      ensures AllLineEdits(rest[1..])
      ensures ApplyToFiles(old(fileManager.files), rest, disk) == ApplyToFiles(fileManager.files, rest[1..], disk)
      ensures installed == PackagesOf(rest[0])
    {
      LineEditsSuffix(rest, 1);
      ApplyToFilesStep(fileManager.files, rest, disk);
      installed := ApplyOne(rest[0], disk);
    }

    /** One turn of the apply loop: load the edit's file, splice its buffer, store it, and
        install the edit's new packages, if any. */
    method ApplyOne(e: Edit, disk: Disk) returns (installed: seq<seq<string>>)
      requires IsLineEdit(e.change)
      modifies fileManager
      ensures var loaded := Loaded(old(fileManager.files), e.filename, disk);
        fileManager.files == loaded[e.filename := ApplyEdit(Content(loaded, e.filename), e)]
      ensures installed == PackagesOf(e)
    {
      fileManager.LoadFile(e.filename, disk);
      var content := fileManager.GetFileContent(e.filename);
      fileManager.UpdateFile(e.filename, ApplyEdit(content, e));
      installed := [];
      if e.newPackages.Some? && |e.newPackages.value| > 0 {
        installed := [e.newPackages.value];
      }
    }

    /** `processEditStream`: confirms each edit packet until the first `alledits` or `error`
        packet, queueing the confirmed ones; then, if any were confirmed and the operator
        agrees, applies them and writes the buffers. Otherwise the disk is unchanged. */
    method ProcessEditStream(packets: seq<Packet>, answers: seq<bool>, applyAnswer: bool, disk: Disk)
      returns (disk': Disk, applied: bool, thrown: bool)
      requires Valid()
      requires |answers| == |packets|
      modifies this, fileManager
      ensures Valid()
      ensures var queued := old(confirmedEdits) + ConfirmedUpTo(packets, answers, Consumed(packets));
        && applied == (|queued| > 0 && applyAnswer)
        && (applied ==> confirmedEdits == Patch.SortEdits(queued))
        && (!applied ==> confirmedEdits == queued && disk' == disk)
      ensures var loaded := LoadedUpTo(old(fileManager.files), packets, disk, Consumed(packets));
        && (applied ==> fileManager.files == ApplyToFiles(loaded, confirmedEdits, disk))
        && (!applied ==> fileManager.files == loaded)
      ensures thrown <==> applied && SaveFails(fileManager.files, disk)
      ensures applied && !thrown ==> disk' == Saved(fileManager.files, disk)
      ensures thrown ==> PartlySaved(fileManager.files, disk, disk')
    {
      var n := Consumed(packets);
      var i := 0;
      while i < |packets|
        invariant 0 <= i <= n
        invariant Valid()
        decreases |packets| - i
        invariant confirmedEdits == old(confirmedEdits) + ConfirmedUpTo(packets, answers, i)
        invariant fileManager.files == LoadedUpTo(old(fileManager.files), packets, disk, i)
      {
        if packets[i].IsTerminal() {
          break;
        }
        var e := packets[i].edit;
        var ok, _ := ConfirmEdit(e, disk, answers[i]);
        if ok {
          confirmedEdits := confirmedEdits + [e];
        }
        i := i + 1;
      }
      assert i == n;
      if |confirmedEdits| > 0 && applyAnswer {
        var total, installs;
        disk', total, installs, thrown := ApplyConfirmedEdits(disk);
        applied := true;
      } else {
        disk', applied, thrown := disk, false, false;
      }
    }
  }

  lemma ApplyToFilesStep(files: map<string, seq<string>>, es: seq<Edit>, disk: Disk)
    requires AllLineEdits(es) && es != []
    ensures var loaded := Loaded(files, es[0].filename, disk);
      ApplyToFiles(files, es, disk)
      == ApplyToFiles(loaded[es[0].filename := ApplyEdit(Content(loaded, es[0].filename), es[0])], es[1..], disk)
  {
  }

  /** The apply loop keeps every buffer and leaves one for each edited file, whatever the
      disk held, an unreadable file included. */
  lemma {:induction false} ApplyToFilesBuffers(files: map<string, seq<string>>, es: seq<Edit>, disk: Disk)
    requires AllLineEdits(es)
    ensures files.Keys <= ApplyToFiles(files, es, disk).Keys
    ensures forall i :: 0 <= i < |es| ==> es[i].filename in ApplyToFiles(files, es, disk)
    decreases |es|
  {
    if es != [] {
      var e := es[0];
      var loaded := Loaded(files, e.filename, disk);
      var next := loaded[e.filename := ApplyEdit(Content(loaded, e.filename), e)];
      LineEditsSuffix(es, 1);
      LoadRules(files, e.filename, disk);
      ApplyToFilesBuffers(next, es[1..], disk);
      forall i | 1 <= i < |es| ensures es[i].filename in ApplyToFiles(files, es, disk) {
        assert es[i] == es[1..][i - 1];
      }
    }
  }

  /** Applying a confirmed edit to a file that exists but cannot be read or written makes
      `saveAllFiles` throw: the apply loop gave that file a buffer, and writing it fails. */
  lemma EditToUnwritableFileFailsSave(files: map<string, seq<string>>, es: seq<Edit>, disk: Disk, k: nat)
    requires AllLineEdits(es) && k < |es|
    requires es[k].filename in disk && disk[es[k].filename].Unreadable?
    ensures SaveFails(ApplyToFiles(files, es, disk), disk)
  {
    ApplyToFilesBuffers(files, es, disk);
    var f := es[k].filename;
    assert f in ApplyToFiles(files, es, disk) && f in disk && disk[f].Unreadable?;
  }

  lemma LineEditsSuffix(es: seq<Edit>, i: nat)
    requires AllLineEdits(es) && i <= |es|
    ensures AllLineEdits(es[i..])
  {
    assert forall k :: 0 <= k < |es| - i ==> es[i..][k] == es[i + k];
  }

  lemma SortKeepsLineEdits(es: seq<Edit>)
    requires AllLineEdits(es)
    ensures AllLineEdits(Patch.SortEdits(es))
  {
    SortEditsSpec(es);
    forall i | 0 <= i < |Patch.SortEdits(es)| ensures IsLineEdit(Patch.SortEdits(es)[i].change) {
      var x := Patch.SortEdits(es)[i];
      assert x in multiset(Patch.SortEdits(es));
      assert x in multiset(es);
    }
  }
}
