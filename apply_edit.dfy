/** The one-edit-at-a-time path of src/apply-edits.ts: read the file, refuse what cannot be
    applied, show the diff, and on the operator's yes write the spliced file. */
module ApplyEdits {
  import opened Wrappers
  import opened Strings
  import opened Edits
  import opened Disk
  import opened Patch
  import opened Diff
  import EditEngine

  /** The lines `applyEdit` works on: the file's lines when it can be read; `[]` for an
      addition to a file that does not exist; nothing otherwise. */
  function ReadLines(e: Edit, disk: Disk): (r: Option<seq<string>>)
    ensures r.None? <==> ((e.filename in disk && disk[e.filename].Unreadable?)
                          || (e.filename !in disk && !e.change.Addition?))
  {
    if e.filename in disk then
      match disk[e.filename]
      case Readable(c) => Some(Split(c, '\n'))
      case Unreadable => None
    else if e.change.Addition? then Some([])
    else None
  }

  /** `applyEdit`: returns whether the edit counts as applied, and the disk afterwards. */
  method ApplyEdit(e: Edit, disk: Disk, answer: bool) returns (ok: bool, disk': Disk, preview: seq<DiffLine>)
    ensures ok <==> ReadLines(e, disk).Some? && (e.change.NpmInstall? || (IsLineEdit(e.change) && answer))
    ensures ok && IsLineEdit(e.change) ==>
      disk' == disk[e.filename := Readable(Join(Patch.ApplyEdit(ReadLines(e, disk).value, e), '\n'))]
    ensures !(ok && IsLineEdit(e.change)) ==> disk' == disk
    ensures ReadLines(e, disk).Some? && IsLineEdit(e.change) ==>
      preview == Render(ReadLines(e, disk).value, NewLines(e.code), StartIndex(e.change), EndIndex(e.change))
  {
    disk', preview := disk, [];
    var fileContent: seq<string>;
    if e.filename in disk && disk[e.filename].Readable? {
      fileContent := Split(disk[e.filename].content, '\n');
    } else if e.change.Addition? && e.filename !in disk {
      fileContent := [];
    } else {
      return false, disk, [];
    }
    assert ReadLines(e, disk) == Some(fileContent);
    var startLine, endLine;
    match e.change {
      case Addition(at) =>
        startLine := at - 1;
        endLine := startLine;
      case Replacement(from, to) =>
        startLine := from - 1;
        endLine := to;
      case NpmInstall(_) =>
        return true, disk, [];
      case Skip =>
        return false, disk, [];
    }
    assert startLine == StartIndex(e.change) && endLine == EndIndex(e.change);
    var newContent := Split(e.code, '\n');
    preview := PrintColoredDiff(fileContent, newContent, startLine, endLine);
    if answer {
      var updated := SliceTo(fileContent, startLine) + newContent + SliceFrom(fileContent, endLine);
      assert updated == Patch.ApplyEdit(fileContent, e);
      disk' := disk[e.filename := Readable(Join(updated, '\n'))];
      ok := true;
    } else {
      ok := false;
    }
  }

  /** The written file reads back as exactly the spliced lines: no line of the buffer or of
      the new code holds a line break. */
  lemma AppliedEditReadsBack(e: Edit, disk: Disk)
    requires IsLineEdit(e.change) && ReadLines(e, disk).Some?
    ensures var lines := Patch.ApplyEdit(ReadLines(e, disk).value, e);
      Split(Join(lines, '\n'), '\n') == lines
  {
    var buf := ReadLines(e, disk).value;
    var lines := Patch.ApplyEdit(buf, e);
    var pre, ins, post := SliceTo(buf, StartIndex(e.change)), NewLines(e.code), SliceFrom(buf, EndIndex(e.change));
    assert lines == pre + ins + post;
    assert |ins| > 0;
    forall k | 0 <= k < |lines| ensures '\n' !in lines[k] {
      if k < |pre| {
        assert lines[k] == pre[k] && pre[k] in buf;
      } else if k < |pre| + |ins| {
        assert lines[k] == ins[k - |pre|];
      } else {
        assert lines[k] == post[k - |pre| - |ins|] && post[k - |pre| - |ins|] in buf;
      }
    }
    SplitJoin(lines, '\n');
  }

  /** For a file that exists and can be read, or does not exist, the one-edit path writes
      what the patch engine would write for the same single edit. */
  lemma AgreesWithEngine(e: Edit, disk: Disk)
    requires IsLineEdit(e.change)
    requires ReadLines(e, disk).Some?
    requires e.filename !in disk ==> e.change.Addition?
    ensures var engine := EditEngine.ApplyToFiles(map[], [e], disk);
      && e.filename in engine
      && EditEngine.Saved(engine, disk)[e.filename]
         == Readable(Join(Patch.ApplyEdit(ReadLines(e, disk).value, e), '\n'))
  {
    assert [e][1..] == [];
  }
}
