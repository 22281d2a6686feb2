/** The edit history of src/edit-history.ts: a persisted list of per-file snapshots that
    records, for every file an edit session touched, its content before the first edit
    since the last revert, so that a revert can restore or delete it. The history file is
    modelled as a `HistoryFile` value and the working tree as a map from path to content,
    with the paths that exist but cannot be read given as a set beside it. */
module History {
  import opened Wrappers
  import opened Edits

  type Files = map<string, string>

  datatype FileHistory = FileHistory(filename: string, originalContent: string, edits: seq<Edit>)

  /** The history file as both operations find it: missing, holding a list of entries, or
      present but unusable, because reading it fails or `JSON.parse` rejects its text;
      either way the operation throws. */
  datatype HistoryFile = Missing | Stored(history: seq<FileHistory>) | Unusable

  /** The entries `saveEdits` starts from: none when the file is missing. */
  function Start(file: HistoryFile): seq<FileHistory>
  {
    if file.Stored? then file.history else []
  }

  /** `history.find(h => h.filename === f)`, as an index. */
  function Find(h: seq<FileHistory>, f: string): (r: Option<nat>)
    ensures r.Some? ==> r.value < |h| && h[r.value].filename == f
    ensures r.Some? ==> forall k :: 0 <= k < r.value ==> h[k].filename != f
    ensures r.None? ==> forall k :: 0 <= k < |h| ==> h[k].filename != f
  {
    if h == [] then None
    else if h[0].filename == f then Some(0)
    else match Find(h[1..], f)
      case None => None
      case Some(k) => Some(k + 1)
  }

  /** The entry recorded for `f`, if any. */
  function EntryFor(h: seq<FileHistory>, f: string): Option<FileHistory>
  {
    match Find(h, f)
    case None => None
    case Some(k) => Some(h[k])
  }

  /** No filename is recorded twice. */
  predicate Unique(h: seq<FileHistory>)
  {
    forall i, j :: 0 <= i < j < |h| ==> h[i].filename != h[j].filename
  }

  /** What a file held before a session: its content, or "" when it did not exist. */
  function Original(files: Files, f: string): string
  {
    if f in files then files[f] else ""
  }

  /** One turn of `saveEdits`: a file already recorded gets the edit appended; a new file is
      recorded at the end with its current content. */
  function Record(h: seq<FileHistory>, e: Edit, files: Files): seq<FileHistory>
  {
    match Find(h, e.filename)
    case Some(k) => h[k := h[k].(edits := h[k].edits + [e])]
    case None => h + [FileHistory(e.filename, Original(files, e.filename), [e])]
  }

  /** The history after recording `es` in order. */
  function RecordAll(h: seq<FileHistory>, es: seq<Edit>, files: Files): seq<FileHistory>
  {
    if es == [] then h else Record(RecordAll(h, es[..|es| - 1], files), es[|es| - 1], files)
  }

  /** The edits of `es` to file `f`, in order. */
  function EditsOf(es: seq<Edit>, f: string): seq<Edit>
  {
    if es == [] then []
    else EditsOf(es[..|es| - 1], f) + (if es[|es| - 1].filename == f then [es[|es| - 1]] else [])
  }

  /** Whether recording `es` onto `h` reads a file that exists but cannot be read: the
      original content is read at the first edit to a file not recorded yet. */
  predicate ReadFails(h: seq<FileHistory>, es: seq<Edit>, files: Files, unreadable: set<string>)
  {
    es != [] &&
    (ReadFails(h, es[..|es| - 1], files, unreadable) ||
     (Find(RecordAll(h, es[..|es| - 1], files), es[|es| - 1].filename).None? && es[|es| - 1].filename in unreadable))
  }

  /** `saveEdits`: reads the stored history (empty when there is none), records every edit
      and stores the result. An unusable history file, or an unreadable file met while
      recording, throws before anything is written. */
  method SaveEdits(edits: seq<Edit>, file: HistoryFile, files: Files, unreadable: set<string>)
    returns (file': HistoryFile, thrown: bool)
    ensures thrown <==> file.Unusable? || ReadFails(Start(file), edits, files, unreadable)
    ensures thrown ==> file' == file
    ensures !thrown ==> file' == Stored(RecordAll(Start(file), edits, files))
  {
    if file.Unusable? {
      return file, true;
    }
    var history := Start(file);
    ghost var start := history;
    var i := 0;
    while i < |edits|
      invariant 0 <= i <= |edits|
      invariant history == RecordAll(start, edits[..i], files)
      invariant !ReadFails(start, edits[..i], files, unreadable)
    {
      RecordPrefix(start, edits, i, files, unreadable);
      var failed;
      history, failed := RecordNext(history, edits[i], files, unreadable);
      if failed {
        ReadFailsStays(start, edits, i + 1, files, unreadable);
        return file, true;
      }
      i := i + 1;
    }
    assert edits[..i] == edits;
    file', thrown := Stored(history), false;
  }

  /** One edit of `saveEdits`: appended to the file's entry when there is one; otherwise the
      file's content is read, which fails for an unreadable file, and a new entry is added. */
  method RecordNext(history: seq<FileHistory>, e: Edit, files: Files, unreadable: set<string>)
    returns (history': seq<FileHistory>, failed: bool)
    ensures failed <==> Find(history, e.filename).None? && e.filename in unreadable
    ensures !failed ==> history' == Record(history, e, files)
  {
    failed := false;
    var existing := Find(history, e.filename);
    if existing.Some? {
      var k := existing.value;
      history' := history[k := history[k].(edits := history[k].edits + [e])];
    } else if e.filename in unreadable {
      history', failed := history, true;
    } else {
      history' := history + [FileHistory(e.filename, Original(files, e.filename), [e])];
    }
  }

  /** Recording one more edit of `es`, as `RecordAll` and `ReadFails` see it. */
  lemma RecordPrefix(h: seq<FileHistory>, es: seq<Edit>, i: nat, files: Files, unreadable: set<string>)
    requires i < |es|
    ensures RecordAll(h, es[..i + 1], files) == Record(RecordAll(h, es[..i], files), es[i], files)
    ensures ReadFails(h, es[..i + 1], files, unreadable) <==>
      ReadFails(h, es[..i], files, unreadable) ||
      (Find(RecordAll(h, es[..i], files), es[i].filename).None? && es[i].filename in unreadable)
  {
    assert es[..i + 1][..i] == es[..i];
  }

  /** Once recording a prefix of `es` reads an unreadable file, recording all of `es` does. */
  lemma {:induction false} ReadFailsStays(h: seq<FileHistory>, es: seq<Edit>, n: nat, files: Files, unreadable: set<string>)
    requires n <= |es| && ReadFails(h, es[..n], files, unreadable)
    ensures ReadFails(h, es, files, unreadable)
  {
    if n < |es| {
      var init := es[..|es| - 1];
      assert init[..n] == es[..n];
      ReadFailsStays(h, init, n, files, unreadable);
    } else {
      assert es[..n] == es;
    }
  }

  /** Under a history that records no file twice, `saveEdits` throws exactly when one of
      the edits is to an unreadable file that the history does not record yet. */
  lemma {:induction false} ReadFailsExactly(h: seq<FileHistory>, es: seq<Edit>, files: Files, unreadable: set<string>)
    requires Unique(h)
    ensures ReadFails(h, es, files, unreadable) <==>
      exists k :: 0 <= k < |es| && es[k].filename in unreadable && Find(h, es[k].filename).None?
  {
    if es != [] {
      var init, e := es[..|es| - 1], es[|es| - 1];
      ReadFailsExactly(h, init, files, unreadable);
      RecordAllEntry(h, init, files, e.filename);
      EditsOfNone(init, e.filename);
      assert forall k :: 0 <= k < |init| ==> init[k] == es[k];
      if ReadFails(h, es, files, unreadable) && !ReadFails(h, init, files, unreadable) {
        assert es[|es| - 1].filename in unreadable && Find(h, es[|es| - 1].filename).None?;
      }
      if !ReadFails(h, es, files, unreadable) {
        forall k | 0 <= k < |es| && es[k].filename in unreadable
          ensures Find(h, es[k].filename).Some?
        {
          if k < |init| {
            assert init[k].filename in unreadable;
          }
        }
      }
    }
  }

  /** A file has no edits among `es` exactly when no edit of `es` is to it. */
  lemma {:induction false} EditsOfNone(es: seq<Edit>, f: string)
    ensures EditsOf(es, f) == [] <==> forall k :: 0 <= k < |es| ==> es[k].filename != f
  {
    if es != [] {
      var init := es[..|es| - 1];
      EditsOfNone(init, f);
      assert forall k :: 0 <= k < |init| ==> init[k] == es[k];
    }
  }

  lemma {:induction false} FindSameNames(h: seq<FileHistory>, g: seq<FileHistory>, f: string)
    requires |h| == |g| && forall k :: 0 <= k < |h| ==> h[k].filename == g[k].filename
    ensures Find(h, f) == Find(g, f)
  {
    if h != [] {
      FindSameNames(h[1..], g[1..], f);
    }
  }

  lemma {:induction false} FindAppend(h: seq<FileHistory>, x: FileHistory, f: string)
    ensures Find(h + [x], f) == if Find(h, f).Some? then Find(h, f) else if x.filename == f then Some(|h|) else None
  {
    if h != [] {
      assert (h + [x])[1..] == h[1..] + [x];
      FindAppend(h[1..], x, f);
    }
  }

  /** One recording step, as seen from any filename. */
  lemma RecordEntry(h: seq<FileHistory>, e: Edit, files: Files, f: string)
    requires Unique(h)
    ensures Unique(Record(h, e, files))
    ensures |Record(h, e, files)| >= |h|
    ensures forall k :: 0 <= k < |h| ==> Record(h, e, files)[k].filename == h[k].filename
    ensures EntryFor(Record(h, e, files), f) ==
      if f != e.filename then EntryFor(h, f)
      else if EntryFor(h, f).Some? then Some(EntryFor(h, f).value.(edits := EntryFor(h, f).value.edits + [e]))
      else Some(FileHistory(f, Original(files, f), [e]))
  {
    var r := Record(h, e, files);
    match Find(h, e.filename) {
      case Some(k) =>
        FindSameNames(h, r, f);
      case None =>
        FindAppend(h, FileHistory(e.filename, Original(files, e.filename), [e]), f);
        var x := FileHistory(e.filename, Original(files, e.filename), [e]);
        assert r == h + [x];
        forall i, j | 0 <= i < j < |r| ensures r[i].filename != r[j].filename {
          if j == |h| {
            assert r[i] == h[i];
          } else {
            assert r[i] == h[i] && r[j] == h[j];
          }
        }
        var fr := Find(r, f);
        if fr.Some? && fr.value < |h| {
          assert r[fr.value] == h[fr.value];
        }
    }
  }

  /** The merge rule of `saveEdits`, for every filename: a recorded file keeps its original
      content and gets its new edits appended in order; a file first seen is recorded with
      its content at this save ("" when absent) and its edits; other files stay unrecorded.
      Entries already present keep their positions, and no filename is recorded twice. */
  lemma {:induction false} RecordAllEntry(h: seq<FileHistory>, es: seq<Edit>, files: Files, f: string)
    requires Unique(h)
    ensures Unique(RecordAll(h, es, files))
    ensures |RecordAll(h, es, files)| >= |h|
    ensures forall k :: 0 <= k < |h| ==> RecordAll(h, es, files)[k].filename == h[k].filename
    ensures EntryFor(RecordAll(h, es, files), f) ==
      if EntryFor(h, f).Some? then Some(EntryFor(h, f).value.(edits := EntryFor(h, f).value.edits + EditsOf(es, f)))
      else if EditsOf(es, f) == [] then None
      else Some(FileHistory(f, Original(files, f), EditsOf(es, f)))
  {
    if es != [] {
      var init, e := es[..|es| - 1], es[|es| - 1];
      RecordAllEntry(h, init, files, f);
      RecordEntry(RecordAll(h, init, files), e, files, f);
      assert RecordAll(h, es, files) == Record(RecordAll(h, init, files), e, files);
      assert EditsOf(es, f) == EditsOf(init, f) + (if e.filename == f then [e] else []);
      if e.filename == f {
        assert EditsOf(es, f) != [];
        if EntryFor(h, f).Some? {
          var x := EntryFor(h, f).value;
          assert x.edits + EditsOf(init, f) + [e] == x.edits + (EditsOf(init, f) + [e]);
        } else if EditsOf(init, f) == [] {
          assert EditsOf(es, f) == [e];
        }
      } else {
        assert EditsOf(es, f) == EditsOf(init, f);
      }
    } else if EntryFor(h, f).Some? {
      assert EntryFor(h, f).value.edits + [] == EntryFor(h, f).value.edits;
    }
  }

  /** One turn of the revert loop: delete a file recorded as "" if it exists, otherwise
      write the recorded content back. */
  function RestoreOne(files: Files, x: FileHistory): Files
  {
    if x.originalContent == "" then (if x.filename in files then files - {x.filename} else files)
    else files[x.filename := x.originalContent]
  }

  /** The working tree after the revert loop over `h`. */
  function Restored(files: Files, h: seq<FileHistory>): Files
  {
    if h == [] then files else RestoreOne(Restored(files, h[..|h| - 1]), h[|h| - 1])
  }

  /** `revertLastChanges`: an unusable history file throws; with no history file or an
      empty history nothing happens; when the operator declines, nothing happens; when the
      operator confirms, every recorded file is restored or deleted and the history is
      cleared. */
  method RevertLastChanges(file: HistoryFile, files: Files, answer: bool)
    returns (files': Files, file': HistoryFile, thrown: bool)
    ensures thrown <==> file.Unusable?
    ensures thrown || file.Missing? || file.history == [] || !answer ==> files' == files && file' == file
    ensures file.Stored? && file.history != [] && answer ==>
      files' == Restored(files, file.history) && file' == Stored([])
  {
    files', file', thrown := files, file, false;
    if file.Unusable? {
      thrown := true;
      return;
    }
    if file.Missing? {
      return;
    }
    var history := file.history;
    if |history| == 0 || !answer {
      return;
    }
    var i := 0;
    while i < |history|
      invariant 0 <= i <= |history|
      invariant files' == Restored(files, history[..i])
    {
      var x := history[i];
      assert history[..i + 1][..i] == history[..i];
      if x.originalContent == "" {
        if x.filename in files' {
          files' := files' - {x.filename};
        }
      } else {
        files' := files'[x.filename := x.originalContent];
      }
      i := i + 1;
    }
    assert history[..i] == history;
    file' := Stored([]);
  }

  /** What a revert does to one file: a recorded file with original content "" is gone, a
      recorded file gets its original content back, and an unrecorded file is untouched. */
  lemma {:induction false} RestoredAt(files: Files, h: seq<FileHistory>, f: string)
    requires Unique(h)
    ensures EntryFor(h, f).None? ==>
      (f in Restored(files, h) <==> f in files) && (f in files ==> Restored(files, h)[f] == files[f])
    ensures EntryFor(h, f).Some? && EntryFor(h, f).value.originalContent == "" ==> f !in Restored(files, h)
    ensures EntryFor(h, f).Some? && EntryFor(h, f).value.originalContent != "" ==>
      f in Restored(files, h) && Restored(files, h)[f] == EntryFor(h, f).value.originalContent
  {
    if h != [] {
      var init := h[..|h| - 1];
      assert Unique(init) by {
        forall i, j | 0 <= i < j < |init| ensures init[i].filename != init[j].filename {
          assert init[i] == h[i] && init[j] == h[j];
        }
      }
      RestoredAt(files, init, f);
      EntryForLast(h, f);
    }
  }

  /** In a history without repeats, the last entry is the one recorded for its file, and
      every other file's entry lies before it. */
  lemma EntryForLast(h: seq<FileHistory>, f: string)
    requires Unique(h) && h != []
    ensures EntryFor(h, f) == if h[|h| - 1].filename == f then Some(h[|h| - 1]) else EntryFor(h[..|h| - 1], f)
  {
    var init, x := h[..|h| - 1], h[|h| - 1];
    assert init + [x] == h;
    FindAppend(init, x, f);
    if x.filename == f {
      assert Find(init, f).None? by {
        forall k | 0 <= k < |init| ensures init[k].filename != f {
          assert init[k] == h[k];
        }
      }
    } else if Find(init, f).Some? {
      assert h[Find(init, f).value] == init[Find(init, f).value];
    }
  }

  /** The round trip the store exists for. Starting from an empty history, record a session's
      edits against the files as they were, let anything happen to the files, then confirm a
      revert: every edited file that existed with content gets that content back, every
      edited file that was absent or empty is deleted, and every other file is as it was
      just before the revert. */
  lemma SaveThenRevert(before: Files, es: seq<Edit>, after: Files, f: string)
    ensures var reverted := Restored(after, RecordAll([], es, before));
      && (EditsOf(es, f) != [] && Original(before, f) != "" ==> f in reverted && reverted[f] == before[f])
      && (EditsOf(es, f) != [] && Original(before, f) == "" ==> f !in reverted)
      && (EditsOf(es, f) == [] ==> (f in reverted <==> f in after) && (f in after ==> reverted[f] == after[f]))
  {
    RecordAllEntry([], es, before, f);
    RestoredAt(after, RecordAll([], es, before), f);
  }

  /** History carries over between saves until a revert: recording more edits never changes
      the original content already recorded for a file, whatever the files hold now. */
  lemma OriginalIsFirstSeen(h: seq<FileHistory>, es: seq<Edit>, files: Files, f: string)
    requires Unique(h) && EntryFor(h, f).Some?
    ensures EntryFor(RecordAll(h, es, files), f).Some?
    ensures EntryFor(RecordAll(h, es, files), f).value.originalContent == EntryFor(h, f).value.originalContent
  {
    RecordAllEntry(h, es, files, f);
  }
}
