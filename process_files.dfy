/** Reading source files into the numbered listing sent to the model
    (src/process-files.ts). The file system is an oracle: `stat` of each input,
    the glob matches of a directory, `read` of a file and `relative` for its path. */
module ProcessFiles {
  import opened Wrappers
  import opened Strings
  import opened Seqs

  // ----- Numbering -----

  /** `L${index + 1}: ${line}`: the numbered form of the line with 0-based index `i`. */
  function NumberedLine(i: nat, line: string): string
  {
    "L" + NatToString(i + 1) + ": " + line
  }

  function Numbered(lines: seq<string>): (r: seq<string>)
    ensures |r| == |lines|
    ensures forall i :: 0 <= i < |lines| ==> r[i] == NumberedLine(i, lines[i])
  {
    seq(|lines|, i requires 0 <= i < |lines| => NumberedLine(i, lines[i]))
  }

  /** The content split at `\n`, each line numbered, joined back with `\n`. */
  function NumberedBody(content: string): string
  {
    Join(Numbered(Split(content, '\n')), '\n')
  }

  /** Reads a numbered line back: its line number and its content. */
  function Unnumber(piece: string): (r: Option<(nat, string)>)
    ensures r.Some? ==> |r.value.1| < |piece|
  {
    if |piece| == 0 || piece[0] != 'L' then None
    else
      var d := LeadingDigits(piece[1..]);
      var rest := piece[1 + |d|..];
      if |d| == 0 || !StartsWith(rest, ": ") then None
      else Some((DigitsValue(d), rest[2..]))
  }

  lemma UnnumberNumbered(i: nat, line: string)
    ensures Unnumber(NumberedLine(i, line)) == Some((i + 1, line))
  {
    var n := NatToString(i + 1);
    var piece := NumberedLine(i, line);
    assert piece[1..] == n + (": " + line);
    LeadingDigitsOfDigitsThen(n, ": " + line);
    DigitsValueOfNatToString(i + 1);
    assert piece[1 + |n|..] == ": " + line;
  }

  lemma NoNewlineInNumberedLine(i: nat, line: string)
    requires '\n' !in line
    ensures '\n' !in NumberedLine(i, line)
  {
    var n := NatToString(i + 1);
    assert forall k :: 0 <= k < |n| ==> n[k] != '\n';
    assert NumberedLine(i, line) == ("L" + n + ": ") + line;
  }

  /** The numbered body has one line per line of the content, `\n`-count plus one of
      them, and the `k`-th is the `k`-th content line behind the prefix `L{k+1}: `. */
  lemma NumberedBodyLines(content: string)
    ensures Split(NumberedBody(content), '\n') == Numbered(Split(content, '\n'))
    ensures |Split(NumberedBody(content), '\n')| == Count(content, '\n') + 1
  {
    var lines := Split(content, '\n');
    var ps := Numbered(lines);
    forall k | 0 <= k < |ps| ensures '\n' !in ps[k] {
      NoNewlineInNumberedLine(k, lines[k]);
    }
    SplitJoin(ps, '\n');
  }

  /** A line without its `L{n}: ` prefix; a line without one is left as it is. */
  function StripNumber(piece: string): string
  {
    match Unnumber(piece)
    case Some(u) => u.1
    case None => piece
  }

  /** What is left of a numbered body when the `L{n}: ` prefix is taken off every line. */
  function StripNumbers(body: string): string
  {
    var ps := Split(body, '\n');
    Join(seq(|ps|, k requires 0 <= k < |ps| => StripNumber(ps[k])), '\n')
  }

  /** Taking the prefixes off gives the content back, and the prefix of line `k` reads
      back as the number `k + 1`. */
  lemma NumberingRoundTrip(content: string)
    ensures StripNumbers(NumberedBody(content)) == content
    ensures var ps := Split(NumberedBody(content), '\n');
      forall k :: 0 <= k < |ps| ==> Unnumber(ps[k]).Some? && Unnumber(ps[k]).value.0 == k + 1
  {
    NumberedBodyLines(content);
    var lines := Split(content, '\n');
    var ps := Split(NumberedBody(content), '\n');
    forall k | 0 <= k < |ps| ensures Unnumber(ps[k]) == Some((k + 1, lines[k])) {
      UnnumberNumbered(k, lines[k]);
    }
    var us := seq(|ps|, k requires 0 <= k < |ps| => StripNumber(ps[k]));
    assert us == lines;
    JoinSplit(content, '\n');
  }

  // ----- Import stripping -----

  /** JavaScript's `\s`. */
  predicate IsSpace(ch: char)
  {
    ch == ' ' || ch == '\t' || ch == '\n' || ch == '\U{B}' || ch == '\U{C}' || ch == '\r'
    || ch == '\U{A0}' || ch == '\U{1680}' || ('\U{2000}' <= ch <= '\U{200A}') || ch == '\U{2028}'
    || ch == '\U{2029}' || ch == '\U{202F}' || ch == '\U{205F}' || ch == '\U{3000}' || ch == '\U{FEFF}'
  }

  /** The characters JavaScript's `.` does not match. */
  predicate IsLineTerminator(ch: char)
  {
    ch == '\n' || ch == '\r' || ch == '\U{2028}' || ch == '\U{2029}'
  }

  /** The longest prefix of `s` made of `\s` characters. */
  function LeadingSpaces(s: string): (r: string)
    ensures |r| <= |s| && r == s[..|r|]
    ensures |r| < |s| ==> !IsSpace(s[|r|])
  {
    if s == [] || !IsSpace(s[0]) then [] else [s[0]] + LeadingSpaces(s[1..])
  }

  /** The first line terminator at or after `from`. */
  function FirstTerminator(s: string, from: nat): (r: Option<nat>)
    decreases |s| - from
    ensures r.Some? ==> from <= r.value < |s| && IsLineTerminator(s[r.value])
    ensures r.Some? ==> forall k :: from <= k < r.value ==> !IsLineTerminator(s[k])
    ensures r.None? ==> forall k :: from <= k < |s| ==> !IsLineTerminator(s[k])
  {
    if from >= |s| then None
    else if IsLineTerminator(s[from]) then Some(from)
    else FirstTerminator(s, from + 1)
  }

  /** The first `{` at or after `from` on the same line. */
  function BraceOnLine(s: string, from: nat): (r: Option<nat>)
    decreases |s| - from
    ensures r.Some? ==> from <= r.value < |s| && s[r.value] == '{'
  {
    if from >= |s| || IsLineTerminator(s[from]) then None
    else if s[from] == '{' then Some(from)
    else BraceOnLine(s, from + 1)
  }

  /** Where `L\d+:\s*import` ends when `s` starts with it. */
  function ImportPrefixEnd(s: string): (r: Option<nat>)
    ensures r.Some? ==> 7 < r.value <= |s|
  {
    if |s| == 0 || s[0] != 'L' then None
    else
      var d := LeadingDigits(s[1..]);
      var i := 1 + |d|;
      if |d| == 0 || i >= |s| || s[i] != ':' then None
      else
        var w := LeadingSpaces(s[i + 1..]);
        var j := i + 1 + |w|;
        if StartsWith(s[j..], "import") then
          assert s[j..][..6] == s[j..j + 6];
          Some(j + 6)
        else None
  }

  /** Where `ImportPrefixEnd` finds the prefix, the text starts with `L` and the prefix
      ends with `import`. */
  lemma ImportPrefixEndReadsImport(s: string)
    requires ImportPrefixEnd(s).Some?
    ensures var j := ImportPrefixEnd(s).value; s[0] == 'L' && s[j - 6..j] == "import"
  {
    var d := LeadingDigits(s[1..]);
    var i := 1 + |d|;
    var w := LeadingSpaces(s[i + 1..]);
    var j := i + 1 + |w|;
    assert s[j..][..6] == s[j..j + 6];
  }

  /** The two patterns of the import stripping: `L\d+:\s*import.*?;?\n` and
      `L\d+:\s*import.*?{[\s\S]*?}\n`. */
  datatype Pattern = ImportLine | ImportBlock

  /** The length of the match of `p` at the start of `s`, if it matches there. Every match
      ends with a `\n`. */
  function MatchLen(p: Pattern, s: string): (r: Option<nat>)
    ensures r.Some? ==> 0 < r.value <= |s| && s[r.value - 1] == '\n'
  {
    match ImportPrefixEnd(s)
    case None => None
    case Some(j) =>
      match p
      case ImportLine =>
        (match FirstTerminator(s, j)
         case Some(e) => if s[e] == '\n' then Some(e + 1) else None
         case None => None)
      case ImportBlock =>
        (match BraceOnLine(s, j)
         case None => None
         case Some(b) =>
           match IndexOfFrom(s, "}\n", b + 1)
           case None => None
           case Some(c) =>
             assert s[c..c + 2] == "}\n";
             assert s[c + 1] == s[c..c + 2][1];
             Some(c + 2))
  }

  /** `s.replace(p, "")` with a global pattern: matches are removed left to right, the
      search resuming after each one. */
  function ReplaceAll(s: string, p: Pattern): string
    decreases |s|
  {
    if s == [] then []
    else match MatchLen(p, s)
      case Some(n) => ReplaceAll(s[n..], p)
      case None => [s[0]] + ReplaceAll(s[1..], p)
  }

  /** Text with no `\n` has nothing to strip: in particular the last line of a body. */
  lemma {:induction false} NoNewlineNothingStripped(s: string, p: Pattern)
    requires '\n' !in s
    ensures ReplaceAll(s, p) == s
    decreases |s|
  {
    if s != [] {
      assert MatchLen(p, s).None?;
      assert '\n' !in s[1..] by {
        forall k | 0 <= k < |s[1..]| ensures s[1..][k] != '\n' {
          assert s[1..][k] == s[k + 1];
        }
      }
      NoNewlineNothingStripped(s[1..], p);
    }
  }

  /** A line whose content, after leading white space, starts with `import`. */
  predicate IsImportLine(c: string)
  {
    StartsWith(c[|LeadingSpaces(c)|..], "import")
  }

  lemma LeadingSpacesAfterSpace(c: string, rest: string)
    requires |LeadingSpaces(c)| < |c|
    ensures LeadingSpaces(" " + c + rest) == " " + LeadingSpaces(c)
  {
    var w := LeadingSpaces(c);
    var s := " " + c + rest;
    assert s[1..] == c + rest;
    LeadingSpacesOfPrefix(c, rest);
  }

  lemma {:induction false} LeadingSpacesOfPrefix(c: string, rest: string)
    requires |LeadingSpaces(c)| < |c|
    ensures LeadingSpaces(c + rest) == LeadingSpaces(c)
  {
    if IsSpace(c[0]) {
      assert (c + rest)[1..] == c[1..] + rest;
      LeadingSpacesOfPrefix(c[1..], rest);
    }
  }

  lemma {:induction false} FirstTerminatorAt(s: string, from: nat, e: nat)
    requires from <= e < |s| && IsLineTerminator(s[e])
    requires forall k :: from <= k < e ==> !IsLineTerminator(s[k])
    ensures FirstTerminator(s, from) == Some(e)
    decreases e - from
  {
    if from < e {
      FirstTerminatorAt(s, from + 1, e);
    }
  }

  /** The numbered-line prefix `L<n>: ` read back: its digits end right before the `:`. */
  lemma NumberedPrefixDigits(n: string, c: string, tail: string)
    requires |n| > 0 && forall k :: 0 <= k < |n| ==> IsDigit(n[k])
    ensures var s := "L" + n + ": " + c + tail;
      |s| > 2 + |n| && s[0] == 'L' && LeadingDigits(s[1..]) == n && s[1 + |n|] == ':' && s[2 + |n|..] == " " + c + tail
  {
    var s := "L" + n + ": " + c + tail;
    var u := ": " + c + tail;
    assert s == "L" + n + u;
    assert s[1..] == n + u;
    LeadingDigitsOfDigitsThen(n, u);
    assert s[1 + |n|..] == u;
    assert s[1 + |n|] == u[0] == ':';
    assert u[1..] == " " + c + tail;
  }

  lemma ImportAfterSpaces(c: string, tail: string)
    requires IsImportLine(c)
    ensures var t := " " + c + tail; var w := " " + LeadingSpaces(c);
      LeadingSpaces(t) == w && StartsWith(t[|w|..], "import")
  {
    var w := LeadingSpaces(c);
    var t := " " + c + tail;
    LeadingSpacesAfterSpace(c, tail);
    StartsWithAppend(c[|w|..], tail, "import");
    assert t[1..] == c + tail;
    DropAppend(c, tail, |w|);
    assert t[1 + |w|..] == t[1..][|w|..];
  }

  /** The parts of a numbered import line that the import pattern reads, one by one. */
  lemma ImportLineShape(n: string, c: string, tail: string)
    requires |n| > 0 && forall k :: 0 <= k < |n| ==> IsDigit(n[k])
    requires IsImportLine(c)
    ensures var s, t, w := "L" + n + ": " + c + tail, " " + c + tail, " " + LeadingSpaces(c);
      |s| > 1 + |n| && s[0] == 'L' && LeadingDigits(s[1..]) == n && s[1 + |n|] == ':' &&
      s[2 + |n|..] == t && LeadingSpaces(t) == w && StartsWith(t[|w|..], "import")
  {
    NumberedPrefixDigits(n, c, tail);
    ImportAfterSpaces(c, tail);
  }

  lemma ImportPrefixEndAt(s: string, d: string, t: string, w: string, j: nat)
    requires |s| > 1 + |d| && s[0] == 'L' && |d| > 0 && LeadingDigits(s[1..]) == d && s[1 + |d|] == ':'
    requires s[2 + |d|..] == t && LeadingSpaces(t) == w && StartsWith(t[|w|..], "import")
    requires j == 2 + |d| + |w| + 6
    ensures ImportPrefixEnd(s) == Some(j)
  {
    assert s[2 + |d| + |w|..] == t[|w|..];
  }

  /** The import-line pattern matches a numbered import line up to and including its
      `\n`, when the line holds no other line terminator. */
  lemma ImportLineMatches(i: nat, c: string, tail: string)
    requires IsImportLine(c)
    requires forall k :: 0 <= k < |c| ==> !IsLineTerminator(c[k])
    ensures MatchLen(ImportLine, NumberedLine(i, c) + "\n" + tail) == Some(|NumberedLine(i, c)| + 1)
  {
    var n := NatToString(i + 1);
    ImportLineMatchesAt(n, c, "\n" + tail);
    assert NumberedLine(i, c) + "\n" + tail == "L" + n + ": " + c + ("\n" + tail);
  }

  /** The same for any line number `n`, the line being followed by `t`, which starts with
      the `\n`. */
  lemma ImportLineMatchesAt(n: string, c: string, t: string)
    requires |n| > 0 && forall k :: 0 <= k < |n| ==> IsDigit(n[k])
    requires IsImportLine(c)
    requires forall k :: 0 <= k < |c| ==> !IsLineTerminator(c[k])
    requires |t| > 0 && t[0] == '\n'
    ensures MatchLen(ImportLine, "L" + n + ": " + c + t) == Some(|"L" + n + ": "| + |c| + 1)
  {
    var p, w := "L" + n + ": ", " " + LeadingSpaces(c);
    ImportLineShape(n, c, t);
    ImportPrefixEndAt(p + c + t, n, " " + c + t, w, 2 + |n| + |w| + 6);
    assert |LeadingSpaces(c)| + 6 <= |c|;
    ImportLineMatchesAfter(p, c, t, 2 + |n| + |w| + 6);
  }

  /** A line `p + c` on which the import prefix ends inside `c`, and `c` holds no line
      terminator, is matched up to and including the `\n` that `t` starts with. */
  lemma ImportLineMatchesAfter(p: string, c: string, t: string, j: nat)
    requires ImportPrefixEnd(p + c + t) == Some(j) && |p| <= j <= |p| + |c|
    requires forall k :: 0 <= k < |c| ==> !IsLineTerminator(c[k])
    requires |t| > 0 && t[0] == '\n'
    ensures MatchLen(ImportLine, p + c + t) == Some(|p| + |c| + 1)
  {
    TerminatorAfterContent(p, c, t, j);
    ImportLineMatchEnd(p + c + t, j, |p| + |c|);
  }

  /** The first line terminator at or after a point inside `c`, which holds none, is the
      `\n` that `t` starts with. */
  lemma TerminatorAfterContent(p: string, c: string, t: string, j: nat)
    requires |p| <= j <= |p| + |c|
    requires forall k :: 0 <= k < |c| ==> !IsLineTerminator(c[k])
    requires |t| > 0 && t[0] == '\n'
    ensures var s := p + c + t; s[|p| + |c|] == '\n' && FirstTerminator(s, j) == Some(|p| + |c|)
  {
    var s := p + c + t;
    forall k | j <= k < |p| + |c| ensures !IsLineTerminator(s[k]) {
      assert s[k] == c[k - |p|];
    }
    assert s[|p| + |c|] == t[0];
    FirstTerminatorAt(s, j, |p| + |c|);
  }

  lemma ImportLineMatchEnd(s: string, j: nat, e: nat)
    requires ImportPrefixEnd(s) == Some(j) && FirstTerminator(s, j) == Some(e) && e < |s| && s[e] == '\n'
    ensures MatchLen(ImportLine, s) == Some(e + 1)
  {
  }

  /** With the import lines stripped, a numbered import line disappears together with its
      `\n`, unless the line holds a line terminator other than `\n` (a `\r` at the end of
      a CRLF line keeps it). */
  lemma ImportLineRemoved(i: nat, c: string, tail: string)
    requires IsImportLine(c)
    requires forall k :: 0 <= k < |c| ==> !IsLineTerminator(c[k])
    ensures ReplaceAll(NumberedLine(i, c) + "\n" + tail, ImportLine) == ReplaceAll(tail, ImportLine)
  {
    var s := NumberedLine(i, c) + "\n" + tail;
    ImportLineMatches(i, c, tail);
    assert s[|NumberedLine(i, c)| + 1..] == tail;
  }

  /** The content of a numbered file, with the import lines stripped unless
      `includeImports`. */
  function ProcessedBody(content: string, includeImports: bool): string
  {
    var body := NumberedBody(content);
    if includeImports then body else ReplaceAll(ReplaceAll(body, ImportLine), ImportBlock)
  }

  /** `loadNumberedFile`: the processed body wrapped in tags naming the file's path
      relative to the working directory. */
  function LoadNumberedFile(relative: string, content: string, includeImports: bool): (r: string)
  {
    "<" + relative + ">\n" + ProcessedBody(content, includeImports) + "\n</" + relative + ">\n\n"
  }

  /** A file's block opens with `<rel>` on a line of its own and closes with `</rel>` and a
      blank line; between them, with `includeImports`, is the numbered body, which reads
      back as the file's content. */
  lemma NumberedFileBlock(relative: string, content: string)
    ensures var r := LoadNumberedFile(relative, content, true);
      var open := "<" + relative + ">\n";
      var close := "\n</" + relative + ">\n\n";
      |open| + |close| <= |r| && StartsWith(r, open) && EndsWith(r, close) &&
      StripNumbers(r[|open|..|r| - |close|]) == content
  {
    var r := LoadNumberedFile(relative, content, true);
    var open := "<" + relative + ">\n";
    var close := "\n</" + relative + ">\n\n";
    var body := NumberedBody(content);
    assert r == open + body + close;
    assert r[..|open|] == open;
    assert r[|r| - |close|..] == close;
    assert r[|open|..|r| - |close|] == body;
    NumberingRoundTrip(content);
  }

  // ----- processFiles -----

  /** What `fs.statSync` says of an input: a directory with its glob matches (every
      `.ts`, `.tsx`, `.js` and `.py` file below it outside `node_modules`, as absolute
      paths), a file with its resolved path, something else, or an error. */
  datatype Stat = Directory(matches: seq<string>) | RegularFile(resolved: string) | Neither | Failed(error: string)

  /** The files collected from the inputs, in input order, or the first `stat` error. */
  function CollectFiles(stats: seq<Stat>): Result<seq<string>>
  {
    if stats == [] then Ok([])
    else
      match CollectFiles(stats[..|stats| - 1])
      case Err(e) => Err(e)
      case Ok(files) =>
        match stats[|stats| - 1]
        case Directory(m) => Ok(files + m)
        case RegularFile(p) => Ok(files + [p])
        case Neither => Ok(files)
        case Failed(e) => Err(e)
  }

  /** The block of one file, or the error reading it threw. */
  function FileBlock(f: string, read: string -> Result<string>, relative: string -> string,
                     includeImports: bool): Result<string>
  {
    match read(f)
    case Err(e) => Err(e)
    case Ok(content) => Ok(LoadNumberedFile(relative(f), content, includeImports))
  }

  /** The blocks of all files joined with `""`, or the first error. */
  function Listing(files: seq<string>, block: string -> Result<string>): Result<string>
  {
    if files == [] then Ok("")
    else
      match Listing(files[..|files| - 1], block)
      case Err(e) => Err(e)
      case Ok(code) =>
        match block(files[|files| - 1])
        case Err(e) => Err(e)
        case Ok(b) => Ok(code + b)
  }

  /** The listing of two runs of files is the listing of the first followed by that of
      the second. */
  lemma {:induction false} ListingAppend(a: seq<string>, b: seq<string>, block: string -> Result<string>)
    requires Listing(a, block).Ok? && Listing(b, block).Ok?
    ensures Listing(a + b, block) == Ok(Listing(a, block).value + Listing(b, block).value)
    decreases |b|
  {
    if b == [] {
      assert a + b == a;
      assert Listing(a, block).value + "" == Listing(a, block).value;
    } else {
      var b0, f := b[..|b| - 1], b[|b| - 1];
      assert (a + b)[..|a + b| - 1] == a + b0;
      assert (a + b)[|a + b| - 1] == f;
      assert Listing(b0, block).Ok?;
      ListingAppend(a, b0, block);
      var x, y := Listing(a, block).value, Listing(b0, block).value;
      assert block(f).Ok? && Listing(b, block).value == y + block(f).value;
      AppendAssociates(x, y, block(f).value);
    }
  }

  /** The inputs contribute their files in order, and no input is counted twice. */
  lemma {:induction false} CollectAppend(s: seq<Stat>, t: seq<Stat>)
    requires CollectFiles(s).Ok? && CollectFiles(t).Ok?
    ensures CollectFiles(s + t) == Ok(CollectFiles(s).value + CollectFiles(t).value)
    decreases |t|
  {
    if t == [] {
      assert s + t == s;
      assert CollectFiles(s).value + [] == CollectFiles(s).value;
    } else {
      var t0 := t[..|t| - 1];
      assert (s + t)[..|s + t| - 1] == s + t0;
      assert (s + t)[|s + t| - 1] == t[|t| - 1];
      assert CollectFiles(t0).Ok?;
      CollectAppend(s, t0);
      var x, y := CollectFiles(s).value, CollectFiles(t0).value;
      match t[|t| - 1]
      case Directory(m) => AppendAssociates(x, y, m);
      case RegularFile(f) => AppendAssociates(x, y, [f]);
      case Neither =>
    }
  }

  /** `processFiles`: the code listing and the number of files, or the error that made it
      throw. */
  method ProcessFiles(stats: seq<Stat>, read: string -> Result<string>, relative: string -> string,
                      includeImports: bool)
    returns (r: Result<(string, nat)>)
    ensures CollectFiles(stats).Err? ==> r == Err(CollectFiles(stats).error)
    ensures CollectFiles(stats).Ok? ==>
      var files := CollectFiles(stats).value;
      match Listing(files, f => FileBlock(f, read, relative, includeImports))
      case Err(e) => r == Err(e)
      case Ok(code) => r == Ok((code, |files|))
  {
    var allFiles: seq<string> := [];
    for i := 0 to |stats|
      invariant CollectFiles(stats[..i]) == Ok(allFiles)
    {
      assert stats[..i + 1][..i] == stats[..i];
      match stats[i]
      case Directory(m) =>
        allFiles := allFiles + m;
      case RegularFile(p) =>
        allFiles := allFiles + [p];
      case Neither =>
      case Failed(e) =>
        CollectStopsAtFailure(stats, i);
        return Err(e);
    }
    assert stats[..|stats|] == stats;
    match Listing(allFiles, f => FileBlock(f, read, relative, includeImports))
    case Err(e) =>
      r := Err(e);
    case Ok(code) =>
      r := Ok((code, |allFiles|));
  }

  /** Once an input fails, the collection fails with that input's error. */
  lemma {:induction false} CollectStopsAtFailure(stats: seq<Stat>, i: nat)
    requires i < |stats| && stats[i].Failed? && CollectFiles(stats[..i]).Ok?
    ensures CollectFiles(stats) == Err(stats[i].error)
    decreases |stats|
  {
    if |stats| == i + 1 {
      assert stats[..|stats| - 1] == stats[..i];
    } else {
      var init := stats[..|stats| - 1];
      assert init[..i] == stats[..i];
      CollectStopsAtFailure(init, i);
    }
  }
}
