// Day 7 of aoc2022/day7.py: a directory tree rebuilt from a shell session
// (`$ cd`, `$ ls` and the listing lines), the recursive folder sizes, and
// the two selections made from them.
//
// The folders are a value tree; the current folder (`cd`, an object with
// a parent link in the source) is the path of names from the root,
// and a change to the current folder rebuilds the tree along that path.
module Day7 {
  import opened Wrappers
  import opened Seqs
  import Text
  import Grids

  datatype File = File(name: string, size: int)

  /** A folder: its files and sub-folders in insertion order (dict order), and its size once estimated. */
  datatype Folder = Folder(name: string, files: seq<File>, folders: seq<Folder>, sizeEstimate: Option<int>)

  /** `Folder.init(name, parent)`: empty, not yet estimated. */
  function NewFolder(name: string): Folder { Folder(name, [], [], None) }

  /** `Folder.root()`. */
  function Root(): Folder { NewFolder("") }

  datatype Command = Ls | Cd(name: string)

  // ---------------------------------------------------------------------
  // Dictionaries keyed by name

  /** The position of the key `name` among the folders, if present. */
  function FindFolder(folders: seq<Folder>, name: string): (r: Option<nat>)
    ensures r.Some? ==> r.value < |folders| && folders[r.value].name == name
    ensures r.Some? ==> forall j :: 0 <= j < r.value ==> folders[j].name != name
    ensures r.None? <==> forall i :: 0 <= i < |folders| ==> folders[i].name != name
  {
    if |folders| == 0 then None
    else if folders[0].name == name then Some(0)
    else
      var rest := FindFolder(folders[1..], name);
      if rest.None? then None else Some(rest.value + 1)
  }

  function FindFile(files: seq<File>, name: string): (r: Option<nat>)
    ensures r.Some? ==> r.value < |files| && files[r.value].name == name
    ensures r.Some? ==> forall j :: 0 <= j < r.value ==> files[j].name != name
    ensures r.None? <==> forall i :: 0 <= i < |files| ==> files[i].name != name
  {
    if |files| == 0 then None
    else if files[0].name == name then Some(0)
    else
      var rest := FindFile(files[1..], name);
      if rest.None? then None else Some(rest.value + 1)
  }

  /** `folders[child.name] = child`: an existing key keeps its place, a new one goes last. */
  function PutFolder(folders: seq<Folder>, child: Folder): (r: seq<Folder>)
    ensures FindFolder(r, child.name).Some? && r[FindFolder(r, child.name).value] == child
  {
    var i := FindFolder(folders, child.name);
    if i.Some? then
      FolderFound(folders[i.value := child], child.name, i.value);
      folders[i.value := child]
    else
      FolderFound(folders + [child], child.name, |folders|);
      folders + [child]
  }

  /** `files[file.name] = file`. */
  function PutFile(files: seq<File>, file: File): (r: seq<File>)
    ensures FindFile(r, file.name).Some? && r[FindFile(r, file.name).value] == file
  {
    var i := FindFile(files, file.name);
    if i.Some? then
      FileFound(files[i.value := file], file.name, i.value);
      files[i.value := file]
    else
      FileFound(files + [file], file.name, |files|);
      files + [file]
  }

  /** The first folder named `name` is the one found. */
  lemma {:induction false} FolderFound(folders: seq<Folder>, name: string, i: nat)
    requires i < |folders| && folders[i].name == name
    requires forall j :: 0 <= j < i ==> folders[j].name != name
    ensures FindFolder(folders, name) == Some(i)
  {
    if i > 0 {
      FolderFound(folders[1..], name, i - 1);
    }
  }

  lemma {:induction false} FileFound(files: seq<File>, name: string, i: nat)
    requires i < |files| && files[i].name == name
    requires forall j :: 0 <= j < i ==> files[j].name != name
    ensures FindFile(files, name) == Some(i)
  {
    if i > 0 {
      FileFound(files[1..], name, i - 1);
    }
  }

  /** The folder a path of names leads to (`cd.folders[name]` along the path). */
  function Resolve(f: Folder, path: seq<string>): Option<Folder>
    decreases |path|
  {
    if |path| == 0 then Some(f)
    else
      var i := FindFolder(f.folders, path[0]);
      if i.None? then None else Resolve(f.folders[i.value], path[1..])
  }

  // ---------------------------------------------------------------------
  // Parsing

  /**
   * `parse_command(line)`: `Ok(None)` for a listing line, `Ok(Some(Ls))`
   * for "$ ls", and `Cd` of the third word otherwise.  A "$" line with too
   * few words raises.
   */
  function ParseCommand(line: string): (r: Result<Option<Command>>)
    ensures !Text.StartsWith(line, "$") ==> r == Ok(None)
    ensures r.Ok? && r.value.Some? ==> Text.StartsWith(line, "$") && |Text.Split(line, ' ')| >= 2
    ensures r.Ok? && r.value.Some? && r.value.value.Cd? ==> |Text.Split(line, ' ')| >= 3
    ensures r.Ok? && r.value == Some(Ls) ==> Text.Split(line, ' ')[1] == "ls"
    ensures r.Ok? && r.value.Some? && r.value.value.Cd? ==>
      Text.Split(line, ' ')[1] != "ls" && r.value.value.name == Text.Split(line, ' ')[2]
  {
    if !Text.StartsWith(line, "$") then Ok(None)
    else
      var parts := Text.Split(line, ' ')[1..];
      if |parts| == 0 then Err("IndexError")
      else if parts[0] == "ls" then Ok(Some(Ls))
      else if |parts| < 2 then Err("IndexError")
      else Ok(Some(Cd(parts[1])))
  }

  /**
   * `update_dir(cd, line)`: "dir x" puts an empty folder `x` (replacing any
   * folder of that name), "n x" a file `x` of size `n`; the line must have
   * exactly two words and `n` must be an integer.
   */
  function UpdateDir(cd: Folder, line: string): (r: Option<Folder>)
    ensures r.Some? ==> r.value.name == cd.name && r.value.sizeEstimate == cd.sizeEstimate
    ensures r.Some? <==> (|Text.Split(line, ' ')| == 2 &&
      (Text.Split(line, ' ')[0] == "dir" || Text.ParseInt(Text.Split(line, ' ')[0]).Some?))
  {
    var parts := Text.Split(line, ' ');
    if |parts| != 2 then None
    else if parts[0] == "dir" then Some(cd.(folders := PutFolder(cd.folders, NewFolder(parts[1]))))
    else
      var size := Text.ParseInt(parts[0]);
      if size.None? then None else Some(cd.(files := PutFile(cd.files, File(parts[1], size.value))))
  }

  /** `update_dir` on the folder at `path`, rebuilding the folders above it. */
  function UpdateAt(root: Folder, path: seq<string>, line: string): (r: Option<Folder>)
    ensures r.Some? ==> r.value.name == root.name
    decreases |path|
  {
    if |path| == 0 then UpdateDir(root, line)
    else
      var i := FindFolder(root.folders, path[0]);
      if i.None? then None
      else
        var child := UpdateAt(root.folders[i.value], path[1..], line);
        if child.None? then None
        else Some(root.(folders := root.folders[i.value := child.value]))
  }

  // ---------------------------------------------------------------------
  // Replaying the session

  /** The tree built so far and the current folder. */
  datatype Shell = Shell(root: Folder, cd: seq<string>)

  /** One line of `replay_command_lines`. */
  function Step(s: Shell, line: string): Option<Shell>
  {
    var cmd := ParseCommand(line);
    if cmd.Err? then None
    else if cmd.value.None? then
      var root := UpdateAt(s.root, s.cd, line);
      if root.None? then None else Some(Shell(root.value, s.cd))
    else match cmd.value.value
      case Ls => Some(s)
      case Cd(target) =>
        if target == ".." then Some(Shell(s.root, if |s.cd| == 0 then [] else s.cd[..|s.cd| - 1]))
        else if target == "/" then Some(Shell(s.root, []))
        else if Resolve(s.root, s.cd + [target]).Some? then Some(Shell(s.root, s.cd + [target]))
        else None
  }

  /** The shell after the lines in order, starting at an empty root; `None` once a line raises. */
  function Replay(lines: seq<string>): Option<Shell>
  {
    if |lines| == 0 then Some(Shell(Root(), []))
    else
      var init := Replay(lines[..|lines| - 1]);
      if init.None? then None else Step(init.value, lines[|lines| - 1])
  }

  /** `replay_command_lines(lines)`: the tree, with every folder's size estimated. */
  method ReplayCommandLines(lines: seq<string>) returns (root: Option<Folder>)
    ensures root.None? <==> Replay(lines).None?
    ensures root.Some? ==> root.value == Estimated(Replay(lines).value.root)
  {
    var tree := Root();
    var cd: seq<string> := [];
    var i := 0;
    while i < |lines|
      invariant 0 <= i <= |lines|
      invariant Replay(lines[..i]).Some? && Replay(lines[..i]).value == Shell(tree, cd)
    {
      assert lines[..i + 1][..i] == lines[..i];
      var next := Step(Shell(tree, cd), lines[i]);
      if next.None? {
        ReplayPrefixFails(lines, i + 1);
        return None;
      }
      tree, cd := next.value.root, next.value.cd;
      i := i + 1;
    }
    assert lines[..i] == lines;
    return Some(Estimated(tree));
  }

  lemma {:induction false} ReplayPrefixFails(lines: seq<string>, n: nat)
    requires n <= |lines| && Replay(lines[..n]).None?
    ensures Replay(lines).None?
    decreases |lines| - n
  {
    if n < |lines| {
      assert lines[..n + 1][..n] == lines[..n];
      ReplayPrefixFails(lines, n + 1);
    } else {
      assert lines[..n] == lines;
    }
  }

  // ---------------------------------------------------------------------
  // Sizes and the list of folders

  /** `sum(file.size for file in files)`. */
  function FilesTotal(files: seq<File>): int
  {
    if |files| == 0 then 0 else files[0].size + FilesTotal(files[1..])
  }

  /** `sum(child.size_estimate or 0 for child in folders)`. */
  function ChildSum(folders: seq<Folder>): int
  {
    if |folders| == 0 then 0
    else (if folders[0].sizeEstimate.Some? then folders[0].sizeEstimate.value else 0) + ChildSum(folders[1..])
  }

  /** `estimate_size(folder)`: children first, then this folder's files plus its children's estimates. */
  function Estimated(f: Folder): (r: Folder)
    ensures r.name == f.name && r.files == f.files && |r.folders| == |f.folders|
    ensures forall i :: 0 <= i < |f.folders| ==> r.folders[i] == Estimated(f.folders[i])
    ensures r.sizeEstimate == Some(FilesTotal(f.files) + ChildSum(r.folders))
    decreases f
  {
    var children := seq(|f.folders|, i requires 0 <= i < |f.folders| => Estimated(f.folders[i]));
    Folder(f.name, f.files, children, Some(FilesTotal(f.files) + ChildSum(children)))
  }

  /** Every file anywhere in the tree: the folder's own, then each sub-folder's in order. */
  function AllFiles(f: Folder): seq<File>
    decreases f, 1
  {
    f.files + Grids.Flatten(SubFiles(f))
  }

  /** Each sub-folder's `AllFiles`, in order. */
  function SubFiles(f: Folder): (r: seq<seq<File>>)
    ensures |r| == |f.folders| && forall i :: 0 <= i < |f.folders| ==> r[i] == AllFiles(f.folders[i])
    decreases f, 0
  {
    seq(|f.folders|, i requires 0 <= i < |f.folders| => AllFiles(f.folders[i]))
  }

  /** `all_dirs(root)`: the folder, then each sub-folder's list in order (pre-order). */
  function AllDirs(f: Folder): (r: seq<Folder>)
    ensures |r| >= 1 && r[0] == f
    decreases f
  {
    [f] + Grids.Flatten(seq(|f.folders|, i requires 0 <= i < |f.folders| => AllDirs(f.folders[i])))
  }

  /** `solve_p1`: the total of the folder sizes below 100000. */
  function SmallDirsTotal(dirs: seq<Folder>): int
  {
    if |dirs| == 0 then 0
    else
      var d := dirs[|dirs| - 1];
      var small := d.sizeEstimate.Some? && d.sizeEstimate.value < 100_000;
      SmallDirsTotal(dirs[..|dirs| - 1]) + (if small then d.sizeEstimate.value else 0)
  }

  /** `solve_p1`: the total of the folder estimates below 100000, or `None` when replaying the lines raises. */
  function SolveP1(lines: seq<string>): (r: Option<int>)
    ensures r.Some? <==> Replay(lines).Some?
  {
    var shell := Replay(lines);
    if shell.None? then None else Some(SmallDirsTotal(AllDirs(Estimated(shell.value.root))))
  }

  /** The size a folder is sorted by. */
  function Size(d: Folder): int { if d.sizeEstimate.Some? then d.sizeEstimate.value else 0 }

  /**
   * The selection of `solve_p2`: the first folder, after a stable sort by
   * size, whose size reaches `target`; that is the smallest such size,
   * and among equal sizes the earliest folder.
   */
  method SelectToDelete(dirs: seq<Folder>, target: int) returns (r: Option<nat>)
    ensures r.None? <==> forall k :: 0 <= k < |dirs| ==> Size(dirs[k]) < target
    ensures r.Some? ==> r.value < |dirs| && Size(dirs[r.value]) >= target
    ensures r.Some? ==> forall k :: 0 <= k < |dirs| && Size(dirs[k]) >= target ==> Size(dirs[r.value]) <= Size(dirs[k])
    ensures r.Some? ==> forall k :: 0 <= k < r.value && Size(dirs[k]) >= target ==> Size(dirs[r.value]) < Size(dirs[k])
  {
    r := None;
    var k := 0;
    while k < |dirs|
      invariant 0 <= k <= |dirs|
      invariant r.None? <==> forall j :: 0 <= j < k ==> Size(dirs[j]) < target
      invariant r.Some? ==> r.value < k && Size(dirs[r.value]) >= target
      invariant r.Some? ==> forall j :: 0 <= j < k && Size(dirs[j]) >= target ==> Size(dirs[r.value]) <= Size(dirs[j])
      invariant r.Some? ==> forall j :: 0 <= j < r.value && Size(dirs[j]) >= target ==> Size(dirs[r.value]) < Size(dirs[j])
    {
      if Size(dirs[k]) >= target && (r.None? || Size(dirs[k]) < Size(dirs[r.value])) {
        r := Some(k);
      }
      k := k + 1;
    }
  }

  /** `solve_p2`: the folder to delete so that 30000000 of the 70000000 become free. */
  method SolveP2(lines: seq<string>) returns (chosen: Option<Folder>)
    ensures chosen.Some? <==> Replay(lines).Some?
    ensures chosen.Some? ==> chosen.value in AllDirs(Estimated(Replay(lines).value.root))
    ensures chosen.Some? ==> Size(chosen.value) >= Size(Estimated(Replay(lines).value.root)) + 30_000_000 - 70_000_000
    ensures chosen.Some? ==>
      var dirs := AllDirs(Estimated(Replay(lines).value.root));
      var target := Size(Estimated(Replay(lines).value.root)) + 30_000_000 - 70_000_000;
      forall d :: d in dirs && Size(d) >= target ==> Size(chosen.value) <= Size(d)
    ensures chosen.Some? ==>
      var dirs := AllDirs(Estimated(Replay(lines).value.root));
      var target := Size(Estimated(Replay(lines).value.root)) + 30_000_000 - 70_000_000;
      exists k :: 0 <= k < |dirs| && dirs[k] == chosen.value &&
        forall j :: 0 <= j < k && Size(dirs[j]) >= target ==> Size(chosen.value) < Size(dirs[j])
  {
    var root := ReplayCommandLines(lines);
    if root.None? {
      return None;
    }
    var used := Size(root.value);
    var target := used + 30_000_000 - 70_000_000;
    var dirs := AllDirs(root.value);
    var k := SelectToDelete(dirs, target);
    if k.None? {
      // The root itself is listed first, and its size always reaches the target.
      assert false;
    }
    return Some(dirs[k.value]);
  }

  // ---------------------------------------------------------------------
  // Properties

  lemma {:induction false} FilesTotalAppend(a: seq<File>, b: seq<File>)
    ensures FilesTotal(a + b) == FilesTotal(a) + FilesTotal(b)
  {
    if |a| > 0 {
      assert (a + b)[1..] == a[1..] + b;
      FilesTotalAppend(a[1..], b);
    } else {
      assert a + b == b;
    }
  }

  lemma {:induction false} ChildSumFlatten(children: seq<Folder>, parts: seq<seq<File>>)
    requires |children| == |parts|
    requires forall i :: 0 <= i < |children| ==> children[i].sizeEstimate == Some(FilesTotal(parts[i]))
    ensures ChildSum(children) == FilesTotal(Grids.Flatten(parts))
  {
    if |children| > 0 {
      ChildSumFlatten(children[1..], parts[1..]);
      FilesTotalAppend(parts[0], Grids.Flatten(parts[1..]));
    }
  }

  /** A folder's estimate is the total size of every file below it. */
  lemma {:induction false} EstimateIsTotal(f: Folder)
    ensures Estimated(f).sizeEstimate == Some(FilesTotal(AllFiles(f)))
    decreases f
  {
    var r := Estimated(f);
    var parts := SubFiles(f);
    var below := FilesTotal(Grids.Flatten(parts));
    assert ChildSum(r.folders) == below by {
      forall i | 0 <= i < |f.folders|
        ensures r.folders[i].sizeEstimate == Some(FilesTotal(parts[i]))
      {
        EstimateIsTotal(f.folders[i]);
      }
      ChildSumFlatten(r.folders, parts);
    }
    assert FilesTotal(AllFiles(f)) == FilesTotal(f.files) + below by {
      FilesTotalAppend(f.files, Grids.Flatten(parts));
    }
  }

  /**
   * After `estimate_size` no folder is left unestimated, and each one's
   * estimate is its own files' sizes plus its sub-folders' estimates.
   */
  lemma {:induction false} AllEstimated(f: Folder, d: Folder)
    requires d in AllDirs(Estimated(f))
    ensures d.sizeEstimate.Some?
    ensures d.sizeEstimate.value == FilesTotal(d.files) + ChildSum(d.folders)
    decreases f
  {
    var r := Estimated(f);
    if d != r {
      var ss := seq(|r.folders|, i requires 0 <= i < |r.folders| => AllDirs(r.folders[i]));
      Grids.FlattenMember(ss, d);
      var i :| 0 <= i < |ss| && d in ss[i];
      AllEstimated(f.folders[i], d);
    }
  }

  /** Every folder a path reaches is in `all_dirs`. */
  lemma {:induction false} ResolvedListed(f: Folder, path: seq<string>)
    requires Resolve(f, path).Some?
    ensures Resolve(f, path).value in AllDirs(f)
    decreases |path|
  {
    if |path| > 0 {
      var i := FindFolder(f.folders, path[0]).value;
      ResolvedListed(f.folders[i], path[1..]);
      var ss := seq(|f.folders|, j requires 0 <= j < |f.folders| => AllDirs(f.folders[j]));
      var d := Resolve(f, path).value;
      assert d == Resolve(f.folders[i], path[1..]).value;
      assert d in ss[i];
      Grids.FlattenMember(ss, d);
      assert AllDirs(f) == [f] + Grids.Flatten(ss);
    }
  }

  /** The current folder always exists: each step keeps `cd` a path of the tree. */
  lemma StepKeepsCd(s: Shell, line: string)
    requires Resolve(s.root, s.cd).Some? && Step(s, line).Some?
    ensures Resolve(Step(s, line).value.root, Step(s, line).value.cd).Some?
  {
    var cmd := ParseCommand(line);
    if cmd.value.None? {
      UpdateKeepsPath(s.root, s.cd, line);
    } else if cmd.value.value.Cd? && cmd.value.value.name == ".." && |s.cd| > 0 {
      ResolvePrefix(s.root, s.cd);
    }
  }

  lemma {:induction false} ResolvePrefix(f: Folder, path: seq<string>)
    requires |path| > 0 && Resolve(f, path).Some?
    ensures Resolve(f, path[..|path| - 1]).Some?
    decreases |path|
  {
    if |path| > 1 {
      var i := FindFolder(f.folders, path[0]).value;
      ResolvePrefix(f.folders[i], path[1..]);
      assert path[1..][..|path[1..]| - 1] == path[..|path| - 1][1..];
    }
  }

  lemma {:induction false} UpdateKeepsPath(root: Folder, path: seq<string>, line: string)
    requires Resolve(root, path).Some? && UpdateAt(root, path, line).Some?
    ensures Resolve(UpdateAt(root, path, line).value, path).Some?
    decreases |path|
  {
    if |path| > 0 {
      var i := FindFolder(root.folders, path[0]).value;
      UpdateKeepsPath(root.folders[i], path[1..], line);
      var child := UpdateAt(root.folders[i], path[1..], line).value;
      var folders := root.folders[i := child];
      FolderFound(folders, path[0], i);
    }
  }

  /** "dir x" leaves an empty folder `x` inside the current folder. */
  lemma DirLineAddsFolder(root: Folder, path: seq<string>, x: string)
    requires Resolve(root, path).Some?
    requires ' ' !in x
    ensures UpdateAt(root, path, "dir " + x).Some?
    ensures Resolve(UpdateAt(root, path, "dir " + x).value, path + [x]) == Some(NewFolder(x))
    decreases |path|
  {
    Text.SplitPrefix("dir", x, ' ');
    Text.SplitNoSep(x, ' ');
    assert "dir " + x == "dir" + [' '] + x;
    DirAt(root, path, "dir " + x, x);
  }

  lemma {:induction false} DirAt(root: Folder, path: seq<string>, line: string, x: string)
    requires Resolve(root, path).Some?
    requires Text.Split(line, ' ') == ["dir", x]
    ensures UpdateAt(root, path, line).Some?
    ensures Resolve(UpdateAt(root, path, line).value, path + [x]) == Some(NewFolder(x))
    decreases |path|
  {
    if |path| == 0 {
      var r := UpdateAt(root, path, line).value;
      assert r.folders == PutFolder(root.folders, NewFolder(x));
      assert path + [x] == [x];
      assert ([x])[1..] == [];
    } else {
      var i := FindFolder(root.folders, path[0]).value;
      DirAt(root.folders[i], path[1..], line, x);
      var child := UpdateAt(root.folders[i], path[1..], line).value;
      FolderFound(root.folders[i := child], path[0], i);
      assert (path + [x])[1..] == path[1..] + [x];
    }
  }
}
