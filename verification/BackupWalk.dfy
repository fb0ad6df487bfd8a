/** The directory walk of backup.py:116-161. The workspace is a finite tree; a path
    is the sequence of the names that lead to it from the workspace. */
module BackupWalk {
  import opened Wrappers

  type Path = seq<string>

  datatype Node = File | Dir(entries: seq<Entry>)

  datatype Entry = Entry(name: string, node: Node)

  predicate ExcludedDir(name: string) {
    name in {"node_modules", ".venv", "__pycache__", "dist", ".git", ".next", ".cache", ".local", "build",
             ".pytest_cache", ".ruff_cache", ".mypy_cache"}
  }

  predicate ExcludedTop(name: string) {
    name in {"site", "backups", ".venv", "_evo", "_evo-output"}
  }

  function LastDot(name: string, n: nat): nat
    requires n <= |name|
  {
    if n == 0 || name[n - 1] == '.' then n else LastDot(name, n - 1)
  }

  /** Path.suffix: a dot at either end of the name starts none. */
  function Suffix(name: string): string {
    var n := LastDot(name, |name|);
    if 1 < n < |name| then name[n - 1..] else ""
  }

  lemma {:induction false} LastDotIs(name: string, n: nat)
    requires n <= |name|
    ensures LastDot(name, n) <= n && (LastDot(name, n) > 0 ==> name[LastDot(name, n) - 1] == '.')
    ensures forall i :: LastDot(name, n) <= i < n ==> name[i] != '.'
  {
    if n > 0 && name[n - 1] != '.' { LastDotIs(name, n - 1); }
  }

  /** A suffix is what follows a stem that is not empty, from the last dot on. */
  lemma SuffixIs(name: string, ext: string)
    requires |ext| > 1 && ext[0] == '.' && forall i :: 1 <= i < |ext| ==> ext[i] != '.'
    ensures Suffix(name) == ext <==> |name| > |ext| && name[|name| - |ext|..] == ext
    ensures Suffix(name) == "" || |Suffix(name)| > 1
  {
    var n := LastDot(name, |name|);
    LastDotIs(name, |name|);
    if |name| > |ext| && name[|name| - |ext|..] == ext {
      var at := |name| - |ext|;
      assert name[at] == ext[0] && forall i :: at < i < |name| ==> name[i] == ext[i - at];
    }
  }

  /** The names of files that are left out. */
  lemma ExcludedFilesAre(name: string)
    ensures ExcludedFile(name) <==>
      || name == ".DS_Store" || name == "Thumbs.db"
      || (|name| > 4 && name[|name| - 4..] == ".pyc")
      || (|name| > 7 && (name[|name| - 7..] == ".db-shm" || name[|name| - 7..] == ".db-wal"))
  {
    SuffixIs(name, ".pyc");
    SuffixIs(name, ".db-shm");
    SuffixIs(name, ".db-wal");
  }

  predicate ExcludedFile(name: string) {
    name in {".DS_Store", "Thumbs.db"} || Suffix(name) in {".pyc", ".db-shm", ".db-wal"}
  }

  /** _should_exclude, for a path that has at least one part. */
  predicate ShouldExclude(path: Path)
    requires path != []
  {
    ExcludedTop(path[0]) || (exists i :: 0 <= i < |path| && ExcludedDir(path[i])) || ExcludedFile(path[|path| - 1])
  }

  // ----- trees -----

  /** Names in a directory are distinct. */
  ghost predicate IsTree(node: Node)
    decreases node
  {
    node.Dir? ==>
      && (forall i, j :: 0 <= i < j < |node.entries| ==> node.entries[i].name != node.entries[j].name)
      && (forall i :: 0 <= i < |node.entries| ==> IsTree(node.entries[i].node))
  }

  predicate HasEntry(node: Node, name: string) {
    node.Dir? && exists i :: 0 <= i < |node.entries| && node.entries[i].name == name
  }

  function Find(entries: seq<Entry>, name: string, n: nat): Option<Node>
    requires n <= |entries|
  {
    if n == 0 then None
    else if entries[n - 1].name == name then Some(entries[n - 1].node)
    else Find(entries, name, n - 1)
  }

  function Child(node: Node, name: string): Option<Node> {
    if node.Dir? then Find(node.entries, name, |node.entries|) else None
  }

  function At(node: Node, path: Path): Option<Node>
    decreases |path|
  {
    if path == [] then Some(node)
    else
      var child := Child(node, path[0]);
      if child.Some? then At(child.value, path[1..]) else None
  }

  lemma {:induction false} FindIs(entries: seq<Entry>, i: nat, n: nat)
    requires i < n <= |entries|
    requires forall j, k :: 0 <= j < k < |entries| ==> entries[j].name != entries[k].name
    ensures Find(entries, entries[i].name, n) == Some(entries[i].node)
  {
    if i < n - 1 { FindIs(entries, i, n - 1); }
  }

  lemma {:induction false} FindInEntries(entries: seq<Entry>, name: string, n: nat)
    requires n <= |entries| && Find(entries, name, n).Some?
    ensures exists i :: 0 <= i < n && entries[i].name == name && Find(entries, name, n) == Some(entries[i].node)
  {
    if entries[n - 1].name == name {
      assert entries[n - 1].name == name;
    } else {
      FindInEntries(entries, name, n - 1);
    }
  }

  lemma ChildIsEntry(node: Node, name: string)
    requires IsTree(node) && node.Dir?
    ensures forall i :: 0 <= i < |node.entries| && node.entries[i].name == name ==> Child(node, name) == Some(node.entries[i].node)
    ensures Child(node, name).Some? ==>
              exists i :: 0 <= i < |node.entries| && node.entries[i].name == name && Child(node, name).value == node.entries[i].node
  {
    forall i | 0 <= i < |node.entries| && node.entries[i].name == name
      ensures Child(node, name) == Some(node.entries[i].node)
    {
      FindIs(node.entries, i, |node.entries|);
    }
    if Child(node, name).Some? { FindInEntries(node.entries, name, |node.entries|); }
  }

  // ----- the walk -----

  /** A directory with a .git entry is skipped, except for the workspace itself. */
  predicate Skipped(path: Path, node: Node) {
    path != [] && HasEntry(node, ".git")
  }

  predicate Descends(entry: Entry) {
    entry.node.Dir? && !ExcludedDir(entry.name)
  }

  predicate Takes(entry: Entry) {
    entry.node.File? && !ExcludedFile(entry.name)
  }

  /** The files taken from the first n entries of a directory. */
  function FilesOf(path: Path, entries: seq<Entry>, n: nat): seq<Path>
    requires n <= |entries|
  {
    if n == 0 then []
    else FilesOf(path, entries, n - 1) + if Takes(entries[n - 1]) then [path + [entries[n - 1].name]] else []
  }

  /** What the walk of a directory yields, in its order: the files of the directory
      and then those of the directories in it. */
  function Walk(path: Path, node: Node): seq<Path>
    decreases node, 0
  {
    if node.File? || Skipped(path, node) then []
    else FilesOf(path, node.entries, |node.entries|) + WalkDirs(path, node.entries)
  }

  function WalkDirs(path: Path, entries: seq<Entry>): seq<Path>
    decreases entries
  {
    if entries == [] then []
    else
      (if Descends(entries[0]) then Walk(path + [entries[0].name], entries[0].node) else [])
      + WalkDirs(path, entries[1..])
  }

  // ----- the loop -----

  /** A directory that os.walk has yet to visit. */
  datatype Pending = Pending(path: Path, node: Node)

  function WalkAll(stack: seq<Pending>): seq<Path> {
    if stack == [] then [] else Walk(stack[0].path, stack[0].node) + WalkAll(stack[1..])
  }

  function Size(node: Node): nat
    decreases node, 0
  {
    1 + if node.Dir? then Sizes(node.entries) else 0
  }

  function Sizes(entries: seq<Entry>): nat
    decreases entries
  {
    if entries == [] then 0 else Size(entries[0].node) + Sizes(entries[1..])
  }

  function TotalSize(stack: seq<Pending>): nat {
    if stack == [] then 0 else Size(stack[0].node) + TotalSize(stack[1..])
  }

  function Children(path: Path, entries: seq<Entry>): seq<Pending> {
    if entries == [] then []
    else
      (if Descends(entries[0]) then [Pending(path + [entries[0].name], entries[0].node)] else [])
      + Children(path, entries[1..])
  }

  lemma {:induction false} ChildrenFirst(path: Path, entries: seq<Entry>, stack: seq<Pending>)
    ensures WalkAll(Children(path, entries) + stack) == WalkDirs(path, entries) + WalkAll(stack)
  {
    if entries == [] {
      assert [] + stack == stack;
      assert [] + WalkAll(stack) == WalkAll(stack);
    } else {
      var rest := Children(path, entries[1..]) + stack;
      ChildrenFirst(path, entries[1..], stack);
      FirstChild(path, entries, stack);
      if Descends(entries[0]) {
        var child := Pending(path + [entries[0].name], entries[0].node);
        assert ([child] + rest)[1..] == rest;
        Regroup(Walk(child.path, child.node), WalkDirs(path, entries[1..]), WalkAll(stack));
      } else {
        assert [] + WalkDirs(path, entries[1..]) == WalkDirs(path, entries[1..]);
      }
    }
  }

  lemma Regroup(a: seq<Path>, b: seq<Path>, c: seq<Path>)
    ensures a + (b + c) == a + b + c
  {
  }

  lemma FirstChild(path: Path, entries: seq<Entry>, stack: seq<Pending>)
    requires entries != []
    ensures var rest := Children(path, entries[1..]) + stack;
      Children(path, entries) + stack
      == if Descends(entries[0]) then [Pending(path + [entries[0].name], entries[0].node)] + rest else rest
  {
  }

  lemma {:induction false} ChildrenSize(path: Path, entries: seq<Entry>, stack: seq<Pending>)
    ensures TotalSize(Children(path, entries) + stack) <= Sizes(entries) + TotalSize(stack)
  {
    if entries == [] {
      assert [] + stack == stack;
    } else {
      ChildrenSize(path, entries[1..], stack);
      FirstChild(path, entries, stack);
    }
  }

  /** The files of one directory that the walk takes. */
  method TakeFiles(path: Path, entries: seq<Entry>) returns (files: seq<Path>)
    ensures files == FilesOf(path, entries, |entries|)
  {
    files := [];
    for i := 0 to |entries|
      invariant files == FilesOf(path, entries, i)
    {
      if Takes(entries[i]) {
        files := files + [path + [entries[i].name]];
      }
    }
  }

  /** _walk_dynamic; `root` is root_rel as a path. */
  method WalkDynamic(tree: Node, root: Path) returns (out: seq<Path>)
    ensures out == if At(tree, root).Some? then Walk(root, At(tree, root).value) else []
  {
    out := [];
    var start := At(tree, root);
    if start.None? || start.value.File? {
      return;
    }
    var stack := [Pending(root, start.value)];
    while stack != []
      invariant Walk(root, start.value) == out + WalkAll(stack)
      decreases TotalSize(stack)
    {
      var path, node := stack[0].path, stack[0].node;
      stack := stack[1..];
      if node.Dir? && !Skipped(path, node) {
        var files := TakeFiles(path, node.entries);
        ChildrenFirst(path, node.entries, stack);
        ChildrenSize(path, node.entries, stack);
        Regroup(files, WalkDirs(path, node.entries), WalkAll(stack));
        Regroup(out, files, WalkDirs(path, node.entries) + WalkAll(stack));
        out := out + files;
        stack := Children(path, node.entries) + stack;
      }
    }
  }

  // ----- which files it takes -----

  predicate IsRepository(tree: Node, path: Path) {
    At(tree, path).Some? && HasEntry(At(tree, path).value, ".git")
  }

  /** A file below the root whose own name is not excluded, with no excluded directory
      between the root and it, and with no repository from the root down to its
      directory, the workspace itself not counted. */
  ghost predicate Keeps(tree: Node, root: Path, p: Path) {
    && |root| < |p| && root <= p && At(tree, p) == Some(File) && !ExcludedFile(p[|p| - 1])
    && (forall k :: |root| <= k < |p| - 1 ==> !ExcludedDir(p[k]))
    && (forall k :: |root| <= k < |p| && k > 0 ==> !IsRepository(tree, p[..k]))
  }

  lemma {:induction false} AtChild(node: Node, path: Path, name: string)
    ensures At(node, path + [name]) == if At(node, path).Some? then Child(At(node, path).value, name) else None
    decreases |path|
  {
    if path == [] {
      assert [name][1..] == [];
      assert [] + [name] == [name];
    } else {
      assert (path + [name])[1..] == path[1..] + [name];
      var child := Child(node, path[0]);
      if child.Some? { AtChild(child.value, path[1..], name); }
    }
  }

  /** A repository is a directory in which .git can be found. */
  lemma RepositoryIff(tree: Node, path: Path)
    ensures IsRepository(tree, path) <==> At(tree, path + [".git"]).Some?
  {
    AtChild(tree, path, ".git");
    if At(tree, path).Some? && At(tree, path).value.Dir? {
      FoundIff(At(tree, path).value.entries, ".git", |At(tree, path).value.entries|);
    }
  }

  lemma {:induction false} FoundIff(entries: seq<Entry>, name: string, n: nat)
    requires n <= |entries|
    ensures Find(entries, name, n).Some? <==> exists i :: 0 <= i < n && entries[i].name == name
  {
    if n > 0 { FoundIff(entries, name, n - 1); }
  }

  lemma {:induction false} FilesOfMembers(path: Path, entries: seq<Entry>, n: nat, p: Path)
    requires n <= |entries|
    ensures p in FilesOf(path, entries, n) <==> exists i :: 0 <= i < n && Takes(entries[i]) && p == path + [entries[i].name]
  {
    if n > 0 { FilesOfMembers(path, entries, n - 1, p); }
  }

  lemma {:induction false} WalkDirsMembers(path: Path, entries: seq<Entry>, p: Path)
    ensures p in WalkDirs(path, entries)
       <==> exists i :: 0 <= i < |entries| && Descends(entries[i]) && p in Walk(path + [entries[i].name], entries[i].node)
  {
    if entries != [] {
      WalkDirsMembers(path, entries[1..], p);
      if i :| 0 <= i < |entries[1..]| && Descends(entries[1..][i]) && p in Walk(path + [entries[1..][i].name], entries[1..][i].node) {
        assert entries[i + 1] == entries[1..][i];
      }
      if i :| 0 <= i < |entries| && Descends(entries[i]) && p in Walk(path + [entries[i].name], entries[i].node) {
        if i > 0 { assert entries[i] == entries[1..][i - 1]; }
      }
    }
  }

  /** What Keeps says of a directory and of the next one on the way. */
  lemma KeepsStep(tree: Node, path: Path, p: Path)
    requires |path| + 1 < |p| && path <= p
    ensures Keeps(tree, path, p)
       <==> !ExcludedDir(p[|path|]) && (path != [] ==> !IsRepository(tree, path)) && Keeps(tree, path + [p[|path|]], p)
  {
    var next := path + [p[|path|]];
    assert next <= p && p[..|path|] == path;
  }

  lemma KeepsHere(tree: Node, path: Path, p: Path)
    requires |path| + 1 == |p| && path <= p
    ensures Keeps(tree, path, p)
       <==> At(tree, p) == Some(File) && !ExcludedFile(p[|path|]) && (path != [] ==> !IsRepository(tree, path))
  {
    assert p[..|path|] == path;
  }

  lemma WalkMembersHere(tree: Node, path: Path, node: Node, p: Path)
    requires IsTree(node) && At(tree, path) == Some(node) && node.Dir? && !Skipped(path, node)
    requires |p| == |path| + 1
    ensures Keeps(tree, path, p) <==> p in FilesOf(path, node.entries, |node.entries|)
  {
    var es := node.entries;
    FilesOfMembers(path, es, |es|, p);
    var name := p[|path|];
    if Keeps(tree, path, p) {
      KeepsHere(tree, path, p);
      assert p == path + [name];
      AtChild(tree, path, name);
      ChildIsEntry(node, name);
    }
    if i :| 0 <= i < |es| && Takes(es[i]) && p == path + [es[i].name] {
      AtChild(tree, path, name);
      ChildIsEntry(node, name);
      KeepsHere(tree, path, p);
    }
  }

  lemma WalkMembersBelow(tree: Node, path: Path, node: Node, p: Path)
    requires IsTree(node) && At(tree, path) == Some(node) && node.Dir? && !Skipped(path, node)
    requires |p| > |path| + 1 && path <= p
    requires forall i :: 0 <= i < |node.entries| && Descends(node.entries[i]) ==>
               (p in Walk(path + [node.entries[i].name], node.entries[i].node)
                <==> Keeps(tree, path + [node.entries[i].name], p))
    ensures p in WalkDirs(path, node.entries) <==> Keeps(tree, path, p)
  {
    var es, name := node.entries, p[|path|];
    WalkDirsMembers(path, es, p);
    KeepsStep(tree, path, p);
    ChildIsEntry(node, name);
    AtChild(tree, path, name);
    if Keeps(tree, path, p) {
      IsDirOnTheWay(tree, path + [name], p);
      var i :| 0 <= i < |es| && es[i].name == name && Child(node, name).value == es[i].node;
      assert Descends(es[i]);
    }
    if i :| 0 <= i < |es| && Descends(es[i]) && p in Walk(path + [es[i].name], es[i].node) {
      assert p[..|path| + 1] == path + [es[i].name];
    }
  }

  lemma WalkIsBelow(path: Path, node: Node, p: Path)
    requires node.Dir? && !Skipped(path, node)
    ensures p in Walk(path, node) <==> p in FilesOf(path, node.entries, |node.entries|) || p in WalkDirs(path, node.entries)
    ensures p in FilesOf(path, node.entries, |node.entries|) ==> |p| == |path| + 1 && path <= p
  {
    FilesOfMembers(path, node.entries, |node.entries|, p);
  }

  lemma DirsAreBelow(tree: Node, path: Path, node: Node, p: Path)
    requires node.Dir? && p in WalkDirs(path, node.entries)
    requires forall i :: 0 <= i < |node.entries| && Descends(node.entries[i]) ==>
               (p in Walk(path + [node.entries[i].name], node.entries[i].node)
                <==> Keeps(tree, path + [node.entries[i].name], p))
    ensures |p| > |path| + 1 && path <= p
  {
    var es := node.entries;
    WalkDirsMembers(path, es, p);
    var i :| 0 <= i < |es| && Descends(es[i]) && p in Walk(path + [es[i].name], es[i].node);
    assert Keeps(tree, path + [es[i].name], p);
    LongerPrefix(path, es[i].name, p);
  }

  lemma LongerPrefix(path: Path, name: string, p: Path)
    requires path + [name] <= p
    ensures path <= p
  {
    assert p == path + ([name] + p[|path| + 1..]);
  }

  lemma WalkMembersStep(tree: Node, path: Path, node: Node, p: Path)
    requires IsTree(node) && At(tree, path) == Some(node)
    requires node.Dir? ==> forall i :: 0 <= i < |node.entries| && Descends(node.entries[i]) ==>
               (p in Walk(path + [node.entries[i].name], node.entries[i].node)
                <==> Keeps(tree, path + [node.entries[i].name], p))
    ensures p in Walk(path, node) <==> Keeps(tree, path, p)
  {
    if node.File? {
      if path <= p && |path| < |p| && At(tree, p).Some? { NothingInFile(tree, path, p); }
    } else if Skipped(path, node) {
      if path <= p { assert p[..|path|] == path; }
    } else {
      WalkIsBelow(path, node, p);
      if p in WalkDirs(path, node.entries) { DirsAreBelow(tree, path, node, p); }
      if |p| == |path| + 1 {
        WalkMembersHere(tree, path, node, p);
      } else if |p| > |path| + 1 && path <= p {
        WalkMembersBelow(tree, path, node, p);
      }
    }
  }

  lemma {:induction false} AtPrefix(node: Node, path: Path, k: nat)
    requires k < |path| && At(node, path).Some?
    ensures At(node, path[..k]).Some? && At(node, path[..k]).value.Dir?
    decreases |path|
  {
    if k > 0 {
      AtPrefix(Child(node, path[0]).value, path[1..], k - 1);
      assert path[..k][0] == path[0] && path[..k][1..] == path[1..][..k - 1];
    }
  }

  lemma NothingInFile(tree: Node, path: Path, p: Path)
    requires path <= p && |path| < |p| && At(tree, p).Some?
    ensures At(tree, path) != Some(File)
  {
    AtPrefix(tree, p, |path|);
    assert p[..|path|] == path;
  }

  lemma IsDirOnTheWay(tree: Node, path: Path, p: Path)
    requires Keeps(tree, path, p)
    ensures At(tree, path).Some? && At(tree, path).value.Dir?
  {
    AtPrefix(tree, p, |path|);
    assert p[..|path|] == path;
  }

  /** The walk takes exactly the files that Keeps describes. */
  lemma {:induction false} WalkMembers(tree: Node, path: Path, node: Node, p: Path)
    requires IsTree(node) && At(tree, path) == Some(node)
    ensures p in Walk(path, node) <==> Keeps(tree, path, p)
    decreases node
  {
    if node.Dir? {
      var es := node.entries;
      forall i | 0 <= i < |es|
        ensures p in Walk(path + [es[i].name], es[i].node) <==> Keeps(tree, path + [es[i].name], p)
      {
        AtChild(tree, path, es[i].name);
        ChildIsEntry(node, es[i].name);
        WalkMembers(tree, path + [es[i].name], es[i].node, p);
      }
    }
    WalkMembersStep(tree, path, node, p);
  }

  /** A repository yields nothing even if it is the root of the walk; only the
      workspace itself may be one. */
  lemma RootIsNotExempt(tree: Node, root: Path, p: Path)
    requires root != [] && IsRepository(tree, root)
    ensures !Keeps(tree, root, p)
  {
    if root <= p { assert p[..|root|] == root; }
  }
}
