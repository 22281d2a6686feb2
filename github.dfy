/** The string logic of src/github-utils.ts: the cache directory a repository URL is
    cloned into, and the GitHub URL found in a command-line argument. The temporary
    directory is a parameter, taken to be a normalised absolute path. */
module GitHub {
  import opened Wrappers
  import opened Strings

  /** `path.join(os.tmpdir(), "mandark-repos")`: one separator between the two, so the
      root directory "/" gives "/mandark-repos". */
  function CacheRoot(tmpdir: string): string
  {
    if tmpdir != [] && tmpdir[|tmpdir| - 1] == '/' then tmpdir + "mandark-repos" else tmpdir + "/mandark-repos"
  }

  /** `repoUrl.split("/").pop()?.replace(".git", "") || ""`: the last `/`-segment of the
      URL with the first `.git` in it removed. */
  function RepoName(repoUrl: string): (r: string)
    ensures '/' !in r
  {
    var segments := Split(repoUrl, '/');
    var last := segments[|segments| - 1];
    var name := ReplaceFirst(last, ".git", "");
    ReplaceFirstKeepsOut(last, ".git", '/');
    name
  }

  /** Removing the first occurrence of a piece adds no character. */
  lemma ReplaceFirstKeepsOut(s: string, p: string, c: char)
    requires c !in s
    ensures c !in ReplaceFirst(s, p, "")
  {
    var r := ReplaceFirst(s, p, "");
    if IndexOfFrom(s, p, 0).Some? {
      var i := IndexOfFrom(s, p, 0).value;
      assert r == s[..i] + s[i + |p|..];
      forall k | 0 <= k < |r| ensures r[k] != c {
        if k < i {
          assert r[k] == s[k];
        } else {
          assert r[k] == s[k + |p|];
        }
      }
    }
  }

  /** `getRepoCacheDir`: `path.join` of the cache root and the repository name, which
      normalises an empty name and `.` to the root itself and `..` to its parent. */
  function RepoCacheDir(tmpdir: string, repoUrl: string): (r: string)
    ensures var name := RepoName(repoUrl);
      (name == "" || name == "." ==> r == CacheRoot(tmpdir)) &&
      (name == ".." ==> r == tmpdir) &&
      (name != "" && name != "." && name != ".." ==> r == CacheRoot(tmpdir) + "/" + name && '/' !in name)
  {
    var name := RepoName(repoUrl);
    if name == "" || name == "." then CacheRoot(tmpdir)
    else if name == ".." then tmpdir
    else CacheRoot(tmpdir) + "/" + name
  }

  lemma {:induction false} SplitLastPiece(a: string, b: string, c: char)
    requires c !in b
    ensures var ps := Split(a + [c] + b, c); |ps| >= 2 && ps[|ps| - 1] == b
    decreases |a|
  {
    if a == [] {
      assert a + [c] + b == [c] + b;
      assert ([c] + b)[1..] == b;
      SplitNoSep(b, c);
    } else {
      var s := a + [c] + b;
      assert s[1..] == a[1..] + [c] + b;
      SplitLastPiece(a[1..], b, c);
      var t := Split(s[1..], c);
      assert Split(s, c) == if s[0] == c then [""] + t else [[s[0]] + t[0]] + t[1..];
    }
  }

  /** A URL ending in `/` names no repository: its cache directory is the cache root. */
  lemma TrailingSlashIsCacheRoot(tmpdir: string, repoUrl: string)
    requires EndsWith(repoUrl, "/")
    ensures RepoName(repoUrl) == ""
    ensures RepoCacheDir(tmpdir, repoUrl) == CacheRoot(tmpdir)
  {
    var a := repoUrl[..|repoUrl| - 1];
    assert repoUrl == a + ['/'] + [];
    SplitLastPiece(a, [], '/');
  }

  /** The repository of `.../<repo>.git` or `.../<repo>`, for a name without dots and
      slashes, is cached under that name. */
  lemma RepoNameOfUrl(prefix: string, repo: string, suffix: string)
    requires suffix == ".git" || suffix == ""
    requires repo != [] && '/' !in repo && '.' !in repo
    ensures RepoName(prefix + "/" + repo + suffix) == repo
  {
    var url := prefix + "/" + repo + suffix;
    var last := repo + suffix;
    assert '/' !in last;
    assert url == prefix + ['/'] + last;
    SplitLastPiece(prefix, last, '/');
    forall k | 0 <= k < |repo| ensures !OccursAt(last, ".git", k) {
      assert last[k] == repo[k];
    }
    if suffix == ".git" {
      assert OccursAt(last, ".git", |repo|);
      assert last[..|repo|] == repo;
    } else {
      forall k | 0 <= k ensures !OccursAt(last, ".git", k) {
        if k < |repo| {
        }
      }
    }
  }

  /** A `.git` anywhere in the last segment is removed, not only at its end. */
  lemma DotGitRemovedInside(prefix: string, a: string, b: string)
    requires '/' !in a && '/' !in b && '.' !in a
    ensures RepoName(prefix + "/" + a + ".git" + b) == a + b
  {
    var last := a + ".git" + b;
    NoSlashAround(a, b);
    assert prefix + "/" + a + ".git" + b == prefix + ['/'] + last;
    SplitLastPiece(prefix, last, '/');
    FirstDotGitRemoved(a, b);
  }

  lemma NoSlashAround(a: string, b: string)
    requires '/' !in a && '/' !in b
    ensures '/' !in a + ".git" + b
  {
    assert '/' !in ".git";
  }

  /** When `a` holds no `.`, the first `.git` of `a + ".git" + b` is the one after `a`. */
  lemma FirstDotGitRemoved(a: string, b: string)
    requires '.' !in a
    ensures ReplaceFirst(a + ".git" + b, ".git", "") == a + b
  {
    var last := a + ".git" + b;
    forall k | 0 <= k < |a| ensures !OccursAt(last, ".git", k) {
      assert last[k] == a[k];
    }
    assert OccursAt(last, ".git", |a|);
    assert last[..|a|] == a;
    assert last[|a| + 4..] == b;
  }

  // ----- extractGitHubUrl -----

  /** `\w`. */
  predicate IsWord(ch: char)
  {
    'a' <= ch <= 'z' || 'A' <= ch <= 'Z' || '0' <= ch <= '9' || ch == '_'
  }

  /** `[\w-]`, the characters of an owner name. */
  predicate IsOwnerChar(ch: char)
  {
    IsWord(ch) || ch == '-'
  }

  /** `[\w.-]`, the characters of a repository name. */
  predicate IsRepoChar(ch: char)
  {
    IsWord(ch) || ch == '.' || ch == '-'
  }

  /** The end of the longest run of owner (or repository) characters from `from`. */
  function RunEnd(s: string, from: nat, repoChars: bool): (r: nat)
    decreases |s| - from
    ensures from <= r && (r == from || r <= |s|)
    ensures forall k :: from <= k < r ==> k < |s| && (if repoChars then IsRepoChar(s[k]) else IsOwnerChar(s[k]))
  {
    if from >= |s| then from
    else if (if repoChars then IsRepoChar(s[from]) else IsOwnerChar(s[from])) then RunEnd(s, from + 1, repoChars)
    else from
  }

  const Host: string := "github.com/"

  /** `github\.com\/([\w-]+)\/([\w.-]+)(?:\.git)?` at `q`: where the match ends. The
      greedy repository run takes any `.git` with it, so the optional group adds nothing. */
  function CoreEnd(s: string, q: nat): (r: Option<nat>)
    ensures r.Some? ==> q + |Host| < r.value <= |s| && OccursAt(s, Host, q)
  {
    if !OccursAt(s, Host, q) then None
    else
      var o := RunEnd(s, q + |Host|, false);
      if o == q + |Host| || o >= |s| || s[o] != '/' then None
      else
        var e := RunEnd(s, o + 1, true);
        if e == o + 1 then None else Some(e)
  }

  /** The optional prefixes the pattern tries at a start position, in the order the
      regular expression engine tries them. */
  const Prefixes: seq<string> := ["https://www.", "https://", "http://www.", "http://", "www.", ""]

  /** The first prefix, in engine order, after which the rest of the pattern matches:
      the start and the end of the `github.com/` part. */
  function MatchFrom(s: string, p: nat, k: nat): (r: Option<(nat, nat)>)
    requires k <= |Prefixes|
    decreases |Prefixes| - k
    ensures r.Some? ==> p <= r.value.0 && CoreEnd(s, r.value.0) == Some(r.value.1)
    ensures k <= 5 && p <= |s| && CoreEnd(s, p).Some? ==> r.Some?
  {
    if k == |Prefixes| then None
    else
      var pre := Prefixes[k];
      if OccursAt(s, pre, p) && CoreEnd(s, p + |pre|).Some? then Some((p + |pre|, CoreEnd(s, p + |pre|).value))
      else MatchFrom(s, p, k + 1)
  }

  /** The first start position at or after `p` where the pattern matches: the start, and
      the start and end of its `github.com/` part. */
  function Search(s: string, p: nat): (r: Option<(nat, nat, nat)>)
    decreases |s| + 1 - p
    ensures r.Some? ==> p <= r.value.0 && MatchFrom(s, r.value.0, 0) == Some((r.value.1, r.value.2))
  {
    if p > |s| then None
    else match MatchFrom(s, p, 0)
      case Some((c, e)) => Some((p, c, e))
      case None => Search(s, p + 1)
  }

  /** The match found is the leftmost: the pattern matches at no earlier start. */
  lemma {:induction false} SearchLeftmost(s: string, p: nat)
    requires Search(s, p).Some?
    ensures forall q :: p <= q < Search(s, p).value.0 ==> MatchFrom(s, q, 0).None?
    decreases |s| + 1 - p
  {
    if MatchFrom(s, p, 0).None? {
      assert Search(s, p) == Search(s, p + 1);
      SearchLeftmost(s, p + 1);
      forall q | p <= q < Search(s, p).value.0 ensures MatchFrom(s, q, 0).None? {
        if q != p {
          assert p + 1 <= q;
        }
      }
    }
  }

  /** No match is found only when no `github.com/<owner>/<repo>` starts at or after `p`. */
  lemma {:induction false} SearchNone(s: string, p: nat)
    requires Search(s, p).None?
    ensures forall q :: p <= q ==> CoreEnd(s, q).None?
    decreases |s| + 1 - p
  {
    if p > |s| {
      forall q | p <= q ensures CoreEnd(s, q).None? {
        assert !OccursAt(s, Host, q);
      }
    } else {
      assert MatchFrom(s, p, 0).None?;
      assert CoreEnd(s, p).None?;
      SearchNone(s, p + 1);
      forall q | p <= q ensures CoreEnd(s, q).None? {
        if q != p {
          assert p + 1 <= q;
        }
      }
    }
  }

  /** `extractGitHubUrl`: the leftmost match of the GitHub URL pattern, or null. */
  function ExtractGitHubUrl(input: string): (r: Option<string>)
  {
    match Search(input, 0)
    case None => None
    case Some((p, _, e)) => Some(input[p..e])
  }

  /** An occurrence makes `includes` true. */
  lemma OccursIncludes(s: string, p: string, k: int)
    requires OccursAt(s, p, k)
    ensures Includes(s, p)
  {
  }

  lemma HostInside(s: string, p: nat, c: nat, e: nat)
    requires p <= c && c + |Host| <= e <= |s| && OccursAt(s, Host, c)
    ensures Includes(s[p..e], Host)
  {
    var r := s[p..e];
    assert r[c - p..c - p + |Host|] == s[c..c + |Host|] by {
      assert |r| == e - p;
      forall j | c - p <= j < c - p + |Host| ensures r[j] == s[j + p] {
      }
    }
    OccursIncludes(r, Host, c - p);
  }

  /** The result is null exactly when no `github.com/<owner>/<repo>` occurs in the input. */
  lemma ExtractGitHubUrlNone(input: string)
    ensures ExtractGitHubUrl(input).None? <==> forall q :: CoreEnd(input, q).None?
  {
    match Search(input, 0)
    case None =>
      SearchNone(input, 0);
    case Some((p, c, e)) =>
      assert CoreEnd(input, c).Some?;
  }

  /** A found URL is a piece of the input holding `github.com/`, and it starts where
      the leftmost match starts. */
  lemma ExtractGitHubUrlFinds(input: string)
    requires ExtractGitHubUrl(input).Some?
    ensures var r := ExtractGitHubUrl(input).value;
      Includes(r, Host) && exists p, e :: 0 <= p <= e <= |input| && input[p..e] == r
  {
    var m := Search(input, 0).value;
    assert CoreEnd(input, m.1) == Some(m.2);
    var r := input[m.0..m.2];
    assert ExtractGitHubUrl(input).value == r;
    HostInside(input, m.0, m.1, m.2);
    assert 0 <= m.0 <= m.2 <= |input| && input[m.0..m.2] == r;
  }
}
