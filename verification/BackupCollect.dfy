/** collect_files of backup.py:164-227: the walks of three directories together with
    the ignored files that git reports. */
module BackupCollect {
  import opened Wrappers
  import opened BackupWalk

  /** The outcome of git ls-files; a line is given by its parts, a blank line has none. */
  datatype Git = Missing | TimesOut | Fails | Lists(lines: seq<Path>)

  datatype Exit = GitNotFound | GitTimedOut | GitFailed

  const ROOTS: seq<string> := ["workspace", "memory", "plugins"]

  function Text(path: Path): string {
    if path == [] then ""
    else if |path| == 1 then path[0]
    else path[0] + "/" + Text(path[1..])
  }

  /** The parts of a text between its slashes. */
  function Parts(text: string): (parts: Path)
    ensures parts != []
  {
    if text == "" then [""]
    else
      var rest := Parts(text[1..]);
      if text[0] == '/' then [""] + rest else [[text[0]] + rest[0]] + rest[1..]
  }

  lemma {:induction false} PartsOfName(name: string, rest: string)
    requires '/' !in name
    ensures Parts(name) == [name] && Parts(name + "/" + rest) == [name] + Parts(rest)
  {
    if name == "" {
      assert ("" + "/" + rest)[1..] == rest;
    } else {
      assert (name + "/" + rest)[1..] == name[1..] + "/" + rest;
      PartsOfName(name[1..], rest);
      assert name == [name[0]] + name[1..];
      assert ([name[1..]] + Parts(rest))[1..] == Parts(rest);
    }
  }

  /** The text of a path names exactly its parts, so different paths have different texts. */
  lemma {:induction false} TextNamesPath(path: Path)
    requires path != [] && forall i :: 0 <= i < |path| ==> '/' !in path[i]
    ensures Parts(Text(path)) == path
  {
    PartsOfName(path[0], if |path| == 1 then "" else Text(path[1..]));
    if |path| > 1 { TextNamesPath(path[1..]); }
  }

  /** Some directory at depth 2 or more on the way to the file is a repository. */
  predicate InsideRepository(tree: Node, p: Path) {
    exists depth :: 2 <= depth < |p| && IsRepository(tree, p[..depth])
  }

  /** The files of the first strategy. */
  ghost predicate IsUserFile(tree: Node, p: Path) {
    p != [] && !ShouldExclude(p) && exists root :: root in ROOTS && Keeps(tree, [root], p)
  }

  /** The files of the second strategy. */
  predicate IsListedFile(tree: Node, p: Path) {
    && p != [] && !ShouldExclude(p)
    && !(p[0] == "workspace" && InsideRepository(tree, p))
    && At(tree, p) == Some(File)
  }

  ghost predicate Collected(tree: Node, lines: seq<Path>, p: Path) {
    IsUserFile(tree, p) || (p in lines && IsListedFile(tree, p))
  }

  // ----- the order of strings -----

  predicate Before(a: string, b: string) {
    b != "" && (a == "" || a[0] < b[0] || (a[0] == b[0] && Before(a[1..], b[1..])))
  }

  lemma {:induction false} BeforeIsTotal(a: string, b: string)
    ensures Before(a, b) || a == b || Before(b, a)
    ensures !(Before(a, b) && Before(b, a)) && !Before(a, a)
  {
    if a != "" {
      BeforeIsTotal(a[1..], a[1..]);
      if b != "" {
        BeforeIsTotal(a[1..], b[1..]);
        assert a == [a[0]] + a[1..] && b == [b[0]] + b[1..];
      }
    }
  }

  lemma {:induction false} BeforeIsTransitive(a: string, b: string, c: string)
    requires Before(a, b) && Before(b, c)
    ensures Before(a, c)
  {
    if a != "" && a[0] == b[0] == c[0] {
      BeforeIsTransitive(a[1..], b[1..], c[1..]);
    }
  }

  /** Strictly ascending, so without duplicates. */
  ghost predicate IsSorted(ts: seq<string>) {
    forall i, j :: 0 <= i < j < |ts| ==> Before(ts[i], ts[j])
  }

  method First(s: set<string>) returns (first: string)
    requires s != {}
    ensures first in s && forall t :: t in s && t != first ==> Before(first, t)
  {
    first :| first in s;
    var rest := s - {first};
    while rest != {}
      invariant first in s && rest <= s
      invariant forall t :: t in s && t !in rest && t != first ==> Before(first, t)
    {
      var t :| t in rest;
      rest := rest - {t};
      BeforeIsTotal(first, t);
      if Before(t, first) {
        forall u | u in s && u !in rest && u != t ensures Before(t, u) {
          if u != first { BeforeIsTransitive(t, first, u); }
        }
        first := t;
      }
    }
  }

  method Sorted(s: set<string>) returns (ts: seq<string>)
    ensures IsSorted(ts) && forall t :: t in ts <==> t in s
  {
    ts := [];
    var rest := s;
    while rest != {}
      invariant rest <= s && IsSorted(ts)
      invariant forall t :: t in ts <==> t in s && t !in rest
      invariant forall t, u :: t in ts && u in rest ==> Before(t, u)
    {
      var first := First(rest);
      assert forall i :: 0 <= i < |ts| ==> ts[i] in ts;
      rest := rest - {first};
      ts := ts + [first];
    }
  }

  // ----- collecting -----

  method UserFiles(tree: Node) returns (files: set<Path>)
    requires IsTree(tree)
    ensures forall p :: p in files <==> IsUserFile(tree, p)
  {
    files := {};
    for r := 0 to |ROOTS|
      invariant forall p :: p in files <==>
        p != [] && !ShouldExclude(p) && exists i :: 0 <= i < r && Keeps(tree, [ROOTS[i]], p)
    {
      var out := WalkDynamic(tree, [ROOTS[r]]);
      WalkOfRoot(tree, [ROOTS[r]]);
      var kept := set p | p in out && p != [] && !ShouldExclude(p);
      files := files + kept;
    }
  }

  lemma WalkOfRoot(tree: Node, root: Path)
    requires IsTree(tree)
    ensures var out := if At(tree, root).Some? then Walk(root, At(tree, root).value) else [];
      forall p :: p in out <==> Keeps(tree, root, p)
  {
    var node := At(tree, root);
    if node.Some? {
      SubtreeIsTree(tree, root);
      forall p ensures p in Walk(root, node.value) <==> Keeps(tree, root, p) {
        WalkMembers(tree, root, node.value, p);
      }
    } else {
      forall p ensures !Keeps(tree, root, p) {
        if Keeps(tree, root, p) { IsDirOnTheWay(tree, root, p); }
      }
    }
  }

  lemma {:induction false} SubtreeIsTree(tree: Node, path: Path)
    requires IsTree(tree) && At(tree, path).Some?
    ensures IsTree(At(tree, path).value)
    decreases |path|
  {
    if path != [] {
      ChildIsEntry(tree, path[0]);
      SubtreeIsTree(Child(tree, path[0]).value, path[1..]);
    }
  }

  method ListedFiles(tree: Node, lines: seq<Path>) returns (files: set<Path>)
    ensures forall p :: p in files <==> p in lines && IsListedFile(tree, p)
  {
    files := {};
    for i := 0 to |lines|
      invariant files == set p | p in lines[..i] && IsListedFile(tree, p)
    {
      assert lines[..i + 1] == lines[..i] + [lines[i]];
      if IsListedFile(tree, lines[i]) {
        files := files + {lines[i]};
      }
    }
  }

  method SortedTexts(files: set<Path>) returns (ts: seq<string>)
    ensures IsSorted(ts) && forall t :: t in ts <==> exists p :: p in files && Text(p) == t
  {
    var texts := set p | p in files :: Text(p);
    ts := Sorted(texts);
  }

  method CollectFiles(tree: Node, git: Git) returns (r: Result<seq<string>, Exit>)
    requires IsTree(tree)
    ensures r.Success? <==> git.Lists?
    ensures (git.Missing? ==> r == Failure(GitNotFound)) && (git.TimesOut? ==> r == Failure(GitTimedOut))
    ensures git.Fails? ==> r == Failure(GitFailed)
    ensures r.Success? ==> IsSorted(r.value)
    ensures r.Success? ==> forall t :: t in r.value <==> exists p :: Collected(tree, git.lines, p) && Text(p) == t
  {
    var files := UserFiles(tree);
    match git
    case Missing => return Failure(GitNotFound);
    case TimesOut => return Failure(GitTimedOut);
    case Fails => return Failure(GitFailed);
    case Lists(lines) =>
      var listed := ListedFiles(tree, lines);
      var all := files + listed;
      var sorted := SortedTexts(all);
      assert forall p :: p in all <==> Collected(tree, lines, p);
      r := Success(sorted);
  }

  // ----- what is in a backup -----

  /** No part of the path and no name that is left out. */
  predicate Wanted(p: Path) {
    && p != [] && p[0] !in {"site", "backups", ".venv", "_evo", "_evo-output"} && !ExcludedFile(p[|p| - 1])
    && (forall part :: part in p ==>
          part !in {"node_modules", ".venv", "__pycache__", "dist", ".git", ".next", ".cache", ".local", "build", ".pytest_cache"}
          && part !in {".ruff_cache", ".mypy_cache"})
  }

  lemma WantedIff(p: Path)
    requires p != []
    ensures Wanted(p) <==> !ShouldExclude(p)
  {
    if Wanted(p) {
      forall i | 0 <= i < |p| ensures !ExcludedDir(p[i]) {
        assert p[i] in p;
      }
    }
  }

  /** Exactly the files that are collected: those of the three directories with no
      repository on the way, the directory itself included, and those that git lists,
      in workspace/ only with no repository from the second directory on. */
  lemma CollectedIff(tree: Node, lines: seq<Path>, p: Path)
    ensures Collected(tree, lines, p) <==>
      && Wanted(p) && At(tree, p) == Some(File)
      && (|| (|p| > 1 && p[0] in {"workspace", "memory", "plugins"}
              && forall k :: 1 <= k < |p| ==> At(tree, p[..k] + [".git"]).None?)
          || (p in lines && (p[0] == "workspace" ==> forall k :: 2 <= k < |p| ==> At(tree, p[..k] + [".git"]).None?)))
  {
    forall k | 0 <= k <= |p| ensures IsRepository(tree, p[..k]) <==> At(tree, p[..k] + [".git"]).Some? {
      RepositoryIff(tree, p[..k]);
    }
    if p != [] {
      WantedIff(p);
      UserFileIff(tree, p);
    }
  }

  lemma UserFileIff(tree: Node, p: Path)
    requires p != []
    ensures IsUserFile(tree, p) <==>
      && !ShouldExclude(p) && At(tree, p) == Some(File) && |p| > 1 && p[0] in {"workspace", "memory", "plugins"}
      && forall k :: 1 <= k < |p| ==> !IsRepository(tree, p[..k])
  {
    assert ROOTS[0] == "workspace" && ROOTS[1] == "memory" && ROOTS[2] == "plugins";
    if !ShouldExclude(p) && At(tree, p) == Some(File) && |p| > 1 && p[0] in {"workspace", "memory", "plugins"}
       && forall k :: 1 <= k < |p| ==> !IsRepository(tree, p[..k]) {
      assert p[0] in ROOTS && [p[0]] <= p;
      assert Keeps(tree, [p[0]], p);
    }
  }

  /** No collected file has an excluded part, name or extension, and none in workspace/
      lies in a repository nested there, whichever strategy found it. */
  lemma NoRepositoryIsCollected(tree: Node, lines: seq<Path>, p: Path)
    requires Collected(tree, lines, p)
    ensures p != [] && !ShouldExclude(p) && At(tree, p) == Some(File)
    ensures p[0] == "workspace" ==> forall depth :: 2 <= depth < |p| ==> !IsRepository(tree, p[..depth])
    ensures forall part :: part in p ==>
      part !in {"node_modules", ".venv", "__pycache__", "dist", ".git", ".next", ".cache", ".local", "build", ".pytest_cache"}
      && part !in {".ruff_cache", ".mypy_cache"}
    ensures p[0] !in {"site", "backups", "_evo", "_evo-output"} && !ExcludedFile(p[|p| - 1])
  {
    if IsUserFile(tree, p) {
      var root :| root in ROOTS && Keeps(tree, [root], p);
      forall depth | 2 <= depth < |p| ensures !IsRepository(tree, p[..depth]) {}
    }
  }
}
