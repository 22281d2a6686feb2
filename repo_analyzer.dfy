/** `analyzeRepoStructure` of src/repo-analyzer.ts over an abstract directory tree: the
    directories up to four levels below the root are scored by their name and by the
    names of their entries, and the paths of those with a positive score are returned,
    highest score first. */
module RepoAnalyzer {
  import opened Strings
  import opened Seqs
  import StableSort

  /** A directory entry as `readdirSync` lists it and `statSync` classifies it: a
      directory with its own entries, or anything else. */
  datatype Entry = File(name: string) | Dir(name: string, entries: seq<Entry>)

  /** `DirAnalysis`. */
  datatype DirAnalysis = DirAnalysis(path: string, score: int)

  const CommonSourceDirs: seq<string> := ["src", "lib", "source", "app"]

  const IgnoreDirs: seq<string> := ["test", "tests", "node_modules", ".git", "build", "dist", "coverage"]

  /** Number of entries in a tree, the measure the traversal decreases. */
  function Size(e: Entry): (r: nat)
    ensures r >= 1
  {
    match e
    case File(_) => 1
    case Dir(_, cs) => 1 + SizeAll(cs)
  }

  function SizeAll(cs: seq<Entry>): nat
  {
    if cs == [] then 0 else SizeAll(cs[..|cs| - 1]) + Size(cs[|cs| - 1])
  }

  lemma {:induction false} SizeAllElement(cs: seq<Entry>, i: nat)
    requires i < |cs|
    ensures Size(cs[i]) <= SizeAll(cs)
  {
    if i < |cs| - 1 {
      SizeAllElement(cs[..|cs| - 1], i);
    }
  }

  /** `path.join` of a normalised directory and an entry name, which holds no `/`. */
  function JoinPath(dir: string, name: string): (r: string)
    ensures StartsWith(r, dir) || dir == "."
  {
    if dir == "" || dir == "." then name
    else if dir[|dir| - 1] == '/' then dir + name
    else dir + "/" + name
  }

  /** The name of a TypeScript or JavaScript source file. */
  predicate IsSourceName(name: string)
  {
    EndsWith(name, ".ts") || EndsWith(name, ".js") || EndsWith(name, ".tsx")
  }

  /** `readdirSync(fullPath).some(...)`: some entry, of whatever kind, has a source name. */
  function HasSourceFiles(cs: seq<Entry>): (r: bool)
    ensures r <==> exists k :: 0 <= k < |cs| && IsSourceName(cs[k].name)
  {
    if cs == [] then false
    else if IsSourceName(cs[0].name) then true
    else
      assert forall k :: 1 <= k < |cs| ==> cs[k] == cs[1..][k - 1];
      HasSourceFiles(cs[1..])
  }

  /** The score of a directory: 10 for a common source name, plus 5 when it holds a
      source file. */
  function Score(name: string, cs: seq<Entry>): (r: int)
    ensures r == 0 || r == 5 || r == 10 || r == 15
    ensures r >= 10 <==> name in CommonSourceDirs
    ensures r % 10 == 5 <==> exists k :: 0 <= k < |cs| && IsSourceName(cs[k].name)
  {
    (if name in CommonSourceDirs then 10 else 0) + (if HasSourceFiles(cs) then 5 else 0)
  }

  /** What `exploreDirectory(dirPath, depth)` pushes, in push order: nothing below
      depth 3, else what each entry contributes. */
  function Explore(dirPath: string, cs: seq<Entry>, depth: nat): seq<DirAnalysis>
    decreases SizeAll(cs), 2
  {
    if depth > 3 then [] else Items(dirPath, cs, depth)
  }

  /** What the loop over the entries pushes. */
  function Items(dirPath: string, cs: seq<Entry>, depth: nat): seq<DirAnalysis>
    decreases SizeAll(cs), 1
  {
    if cs == [] then []
    else Items(dirPath, cs[..|cs| - 1], depth) + Visit(dirPath, cs[|cs| - 1], depth)
  }

  /** What one entry contributes: nothing for a non-directory or an ignored name; else
      the directory itself when its score is positive, then what lies below it. */
  function Visit(dirPath: string, e: Entry, depth: nat): seq<DirAnalysis>
    decreases Size(e), 0
  {
    match e
    case File(_) => []
    case Dir(name, cs) =>
      if name in IgnoreDirs then []
      else
        var fullPath := JoinPath(dirPath, name);
        var score := Score(name, cs);
        Own(fullPath, Score(name, cs)) + Explore(fullPath, cs, depth + 1)
  }

  /** The analysis pushed for a directory itself: one when its score is positive. */
  function Own(fullPath: string, score: int): seq<DirAnalysis>
  {
    if score > 0 then [DirAnalysis(fullPath, score)] else []
  }

  function ScoreOf(d: DirAnalysis): int
  {
    d.score
  }

  function Paths(ds: seq<DirAnalysis>): (r: seq<string>)
    ensures |r| == |ds| && forall k :: 0 <= k < |ds| ==> r[k] == ds[k].path
  {
    seq(|ds|, k requires 0 <= k < |ds| => ds[k].path)
  }

  /** The state of `analyzeRepoStructure` that `exploreDirectory` closes over. */
  class Analyzer {
    var sourceDirs: seq<DirAnalysis>

    constructor ()
      ensures sourceDirs == []
    {
      sourceDirs := [];
    }

    /** `exploreDirectory`: pushes what `Explore` describes. */
    method ExploreDirectory(dirPath: string, items: seq<Entry>, depth: nat)
      modifies this
      ensures sourceDirs == old(sourceDirs) + Explore(dirPath, items, depth)
      decreases SizeAll(items), 3
    {
      if depth > 3 {
        return;
      }
      ghost var start := sourceDirs;
      for i := 0 to |items|
        invariant sourceDirs == start + Items(dirPath, items[..i], depth)
      {
        ExploreNext(dirPath, items, i, depth, start);
      }
      assert items[..|items|] == items;
    }

    /** The pass of the loop in `exploreDirectory` over `items[i]`, after the passes
        over the entries before it. */
    method ExploreNext(dirPath: string, items: seq<Entry>, i: nat, depth: nat, ghost start: seq<DirAnalysis>)
      requires i < |items|
      requires sourceDirs == start + Items(dirPath, items[..i], depth)
      modifies this
      ensures sourceDirs == start + Items(dirPath, items[..i + 1], depth)
      decreases SizeAll(items), 2
    {
      SizeAllElement(items, i);
      ExploreEntry(dirPath, items[i], depth);
      ItemsStep(dirPath, items, i, depth);
      AppendAssociates(start, Items(dirPath, items[..i], depth), Visit(dirPath, items[i], depth));
    }

    /** One pass of the loop in `exploreDirectory`, over the entry `item`. */
    method ExploreEntry(dirPath: string, item: Entry, depth: nat)
      modifies this
      ensures sourceDirs == old(sourceDirs) + Visit(dirPath, item, depth)
      decreases Size(item), 1
    {
      if !item.Dir? {
        return;
      }
      var name, cs := item.name, item.entries;
      if name in IgnoreDirs {
        return;
      }
      var score := 0;
      if name in CommonSourceDirs {
        score := score + 10;
      }
      var hasSourceFiles := HasSourceFiles(cs);
      if hasSourceFiles {
        score := score + 5;
      }
      var fullPath := JoinPath(dirPath, name);
      if score > 0 {
        sourceDirs := sourceDirs + [DirAnalysis(fullPath, score)];
      }
      assert sourceDirs == old(sourceDirs) + Own(fullPath, Score(name, cs));
      ExploreDirectory(fullPath, cs, depth + 1);
      AppendAssociates(old(sourceDirs), Own(fullPath, Score(name, cs)), Explore(fullPath, cs, depth + 1));
    }
  }

  lemma ItemsStep(dirPath: string, cs: seq<Entry>, i: nat, depth: nat)
    requires i < |cs|
    ensures Items(dirPath, cs[..i + 1], depth) == Items(dirPath, cs[..i], depth) + Visit(dirPath, cs[i], depth)
  {
    assert cs[..i + 1][..i] == cs[..i];
  }

  /** `analyzeRepoStructure(repoPath)`, the root holding `items`. */
  method AnalyzeRepoStructure(repoPath: string, items: seq<Entry>) returns (paths: seq<string>)
    ensures paths == Paths(StableSort.SortDesc(Explore(repoPath, items, 0), ScoreOf))
  {
    var analyzer := new Analyzer();
    analyzer.ExploreDirectory(repoPath, items, 0);
    assert analyzer.sourceDirs == Explore(repoPath, items, 0);
    var sorted := StableSort.SortDesc(analyzer.sourceDirs, ScoreOf);
    paths := Paths(sorted);
  }

  /** Every listed directory has a score of 5, 10 or 15 and a path below the directory
      explored. */
  ghost predicate WellListed(dirPath: string, ds: seq<DirAnalysis>)
  {
    forall k :: 0 <= k < |ds| ==>
      (ds[k].score == 5 || ds[k].score == 10 || ds[k].score == 15) &&
      (StartsWith(ds[k].path, dirPath) || dirPath == ".")
  }

  lemma WellListedAppend(dirPath: string, a: seq<DirAnalysis>, b: seq<DirAnalysis>)
    requires WellListed(dirPath, a) && WellListed(dirPath, b)
    ensures WellListed(dirPath, a + b)
  {
    forall k | 0 <= k < |a + b|
      ensures ((a + b)[k].score == 5 || (a + b)[k].score == 10 || (a + b)[k].score == 15) &&
        (StartsWith((a + b)[k].path, dirPath) || dirPath == ".")
    {
      if k >= |a| {
        assert (a + b)[k] == b[k - |a|];
      }
    }
  }

  lemma StartsWithTrans(s: string, t: string, u: string)
    requires StartsWith(s, t) && StartsWith(t, u)
    ensures StartsWith(s, u)
  {
    assert s[..|u|] == t[..|u|];
  }

  /** What lies below a directory is listed below it. */
  lemma WellListedBelow(dirPath: string, fullPath: string, ds: seq<DirAnalysis>)
    requires WellListed(fullPath, ds) && StartsWith(fullPath, dirPath) && fullPath != "."
    ensures WellListed(dirPath, ds)
  {
    forall k | 0 <= k < |ds| ensures StartsWith(ds[k].path, dirPath) {
      StartsWithTrans(ds[k].path, fullPath, dirPath);
    }
  }

  /** Every pushed score is 5, 10 or 15, and every pushed path lies below the root. */
  lemma {:induction false} ExploreWellListed(dirPath: string, cs: seq<Entry>, depth: nat)
    ensures WellListed(dirPath, Explore(dirPath, cs, depth))
    decreases SizeAll(cs), 2
  {
    if depth <= 3 {
      ItemsWellListed(dirPath, cs, depth);
    }
  }

  lemma {:induction false} ItemsWellListed(dirPath: string, cs: seq<Entry>, depth: nat)
    ensures WellListed(dirPath, Items(dirPath, cs, depth))
    decreases SizeAll(cs), 1
  {
    if cs != [] {
      ItemsWellListed(dirPath, cs[..|cs| - 1], depth);
      VisitWellListed(dirPath, cs[|cs| - 1], depth);
      WellListedAppend(dirPath, Items(dirPath, cs[..|cs| - 1], depth), Visit(dirPath, cs[|cs| - 1], depth));
    }
  }

  lemma {:induction false} VisitWellListed(dirPath: string, e: Entry, depth: nat)
    ensures WellListed(dirPath, Visit(dirPath, e, depth))
    decreases Size(e), 0
  {
    match e
    case File(_) =>
    case Dir(name, cs) =>
      if name !in IgnoreDirs {
        var fullPath := JoinPath(dirPath, name);
        var own := Own(fullPath, Score(name, cs));
        ExploreWellListed(fullPath, cs, depth + 1);
        var below := Explore(fullPath, cs, depth + 1);
        if dirPath == "." {
        } else if fullPath == "." {
          assert dirPath == "";
        } else {
          WellListedBelow(dirPath, fullPath, below);
        }
        WellListedAppend(dirPath, own, below);
      }
  }

  /** An entry as the traversal sees it when nothing below it is read: its kind and name. */
  function Stub(e: Entry): (r: Entry)
    ensures r.name == e.name && r.Dir? == e.Dir?
  {
    match e
    case File(n) => File(n)
    case Dir(n, _) => Dir(n, [])
  }

  /** The tree `levels` levels deep with everything further down cut off, except the
      names of the entries of the deepest directories, which their score reads. */
  function Prune(e: Entry, levels: nat): (r: Entry)
    ensures r.name == e.name && r.Dir? == e.Dir?
    decreases levels, 0
  {
    match e
    case File(n) => File(n)
    case Dir(n, cs) => Dir(n, if levels == 0 then seq(|cs|, k requires 0 <= k < |cs| => Stub(cs[k])) else PruneAll(cs, levels - 1))
  }

  function PruneAll(cs: seq<Entry>, levels: nat): (r: seq<Entry>)
    ensures |r| == |cs| && forall k :: 0 <= k < |cs| ==> r[k] == Prune(cs[k], levels)
    decreases levels, 1
  {
    seq(|cs|, k requires 0 <= k < |cs| => Prune(cs[k], levels))
  }

  lemma SameNamesSameSource(a: seq<Entry>, b: seq<Entry>)
    requires |a| == |b| && forall k :: 0 <= k < |a| ==> a[k].name == b[k].name
    ensures HasSourceFiles(a) == HasSourceFiles(b)
  {
    if HasSourceFiles(a) {
      var k :| 0 <= k < |a| && IsSourceName(a[k].name);
      assert IsSourceName(b[k].name);
    }
    if HasSourceFiles(b) {
      var k :| 0 <= k < |b| && IsSourceName(b[k].name);
      assert IsSourceName(a[k].name);
    }
  }

  /** The depth limit: exploring from depth `depth` reads nothing more than `4 - depth`
      levels down, so only directories at most four levels below the root are listed
      and only the entry names of the fourth level are read. */
  lemma {:induction false} ExploreReadsFourLevels(dirPath: string, cs: seq<Entry>, depth: nat)
    requires depth <= 3
    ensures Explore(dirPath, cs, depth) == Explore(dirPath, PruneAll(cs, 3 - depth), depth)
    decreases SizeAll(cs), 2
  {
    ItemsReadFourLevels(dirPath, cs, depth);
  }

  lemma {:induction false} ItemsReadFourLevels(dirPath: string, cs: seq<Entry>, depth: nat)
    requires depth <= 3
    ensures Items(dirPath, cs, depth) == Items(dirPath, PruneAll(cs, 3 - depth), depth)
    decreases SizeAll(cs), 1
  {
    if cs != [] {
      var p := PruneAll(cs, 3 - depth);
      assert p[..|p| - 1] == PruneAll(cs[..|cs| - 1], 3 - depth);
      ItemsReadFourLevels(dirPath, cs[..|cs| - 1], depth);
      VisitReadsFourLevels(dirPath, cs[|cs| - 1], depth);
    }
  }

  lemma {:induction false} VisitReadsFourLevels(dirPath: string, e: Entry, depth: nat)
    requires depth <= 3
    ensures Visit(dirPath, e, depth) == Visit(dirPath, Prune(e, 3 - depth), depth)
    decreases Size(e), 0
  {
    match e
    case File(_) =>
    case Dir(name, cs) =>
      var pcs := Prune(e, 3 - depth).entries;
      assert |pcs| == |cs| && forall k :: 0 <= k < |cs| ==> pcs[k].name == cs[k].name;
      SameNamesSameSource(cs, pcs);
      var fullPath := JoinPath(dirPath, name);
      if depth < 3 {
        assert pcs == PruneAll(cs, 2 - depth);
        ExploreReadsFourLevels(fullPath, cs, depth + 1);
      } else {
        assert Explore(fullPath, cs, depth + 1) == [] == Explore(fullPath, pcs, depth + 1);
      }
      if name !in IgnoreDirs {
        assert Visit(dirPath, Prune(e, 3 - depth), depth) == Own(fullPath, Score(name, pcs)) + Explore(fullPath, pcs, depth + 1);
      }
  }

  /** The result lists every pushed directory once, highest score first, with equal
      scores in traversal order. */
  lemma ResultOrder(repoPath: string, items: seq<Entry>)
    ensures var listed := Explore(repoPath, items, 0);
      var sorted := StableSort.SortDesc(listed, ScoreOf);
      StableSort.Descending(sorted, ScoreOf) &&
      multiset(sorted) == multiset(listed) &&
      forall s :: StableSort.WithKey(sorted, ScoreOf, s) == StableSort.WithKey(listed, ScoreOf, s)
  {
    var listed := Explore(repoPath, items, 0);
    StableSort.SortIsDescending(listed, ScoreOf);
    StableSort.SortIsPermutation(listed, ScoreOf);
    forall s ensures StableSort.WithKey(StableSort.SortDesc(listed, ScoreOf), ScoreOf, s) == StableSort.WithKey(listed, ScoreOf, s) {
      StableSort.SortIsStable(listed, ScoreOf, s);
    }
  }
}
