/**
 * The file-system simulator as objects.
 *
 * `Directory` objects hold their files and subdirectories in maps that their
 * methods update in place, and a back-reference to their parent.  A
 * `FileSystem` holds the root and a cursor `current` that `Cd` moves; every
 * other operation delegates to the current directory.
 *
 * Ghost state ties the objects to the values of module `Session`: `Abs`
 * reads the tree below a directory object as a `Dir`, and `State()` is the
 * session those objects stand for.  Every operation is proved to move that
 * state exactly as the matching `Session` function does.
 */
module Heap {
  import opened Tree
  import Session

  class Directory {
    var name: string
    var files: map<string, int>
    var subs: map<string, Directory>
    var parent: Directory?
    /** The number of steps from the root down to this directory; fixed at creation. */
    ghost var level: nat

    constructor (name: string, parent: Directory?)
      ensures this.name == name && this.parent == parent
      ensures files == map[] && subs == map[]
      ensures level == if parent == null then 0 else parent.level + 1
    {
      this.name := name;
      this.parent := parent;
      files := map[];
      subs := map[];
      level := if parent == null then 0 else parent.level + 1;
    }

    /** The subdirectory called `name`, or null when there is none. */
    function GetSubDirectory(name: string): (d: Directory?)
      reads this`subs
      ensures d != null <==> name in subs
      ensures d != null ==> d == subs[name]
    {
      if name in subs then subs[name] else null
    }

    /** Puts file `name` with the given size, replacing a file of that name. */
    method AddFile(name: string, size: int)
      modifies this`files
      ensures files == old(files)[name := size]
    {
      files := files[name := size];
    }

    /** Removes file `name`, if there is one. */
    method DeleteFile(name: string)
      modifies this`files
      ensures files == old(files) - {name}
    {
      files := files - {name};
    }

    /**
     * Installs a new, empty directory `name` whose parent is this one,
     * replacing a subdirectory of that name.
     */
    method AddFolder(name: string)
      modifies this`subs
      ensures name in subs && fresh(subs[name])
      ensures subs == old(subs)[name := subs[name]]
      ensures subs[name].name == name && subs[name].parent == this
      ensures subs[name].files == map[] && subs[name].subs == map[]
      ensures subs[name].level == level + 1
    {
      var d := new Directory(name, this);
      subs := subs[name := d];
    }

    /** Removes subdirectory `name`, if there is one. */
    method DeleteFolder(name: string)
      modifies this`subs
      ensures subs == old(subs) - {name}
    {
      subs := subs - {name};
    }

    /** The names of the files here and the names of the subdirectories here. */
    method ListDirectory() returns (fileNames: set<string>, folderNames: set<string>)
      ensures fileNames == files.Keys && folderNames == subs.Keys
    {
      fileNames := files.Keys;
      folderNames := subs.Keys;
    }

    /**
     * The aggregate size of this directory as a Java `int`: file sizes summed
     * with wrap-around, then each subdirectory's aggregate size added, the
     * subdirectories visited in whatever order the map yields them.  It is
     * the exact weight `w` of the objects below this one, wrapped to 32 bits.
     */
    method GetDirectorySize(ghost fs: FileSystem, ghost w: int) returns (size: int)
      requires fs.Ranked() && this in fs.nodes && w == fs.Weight(this)
      ensures size == Wrap32(w)
      decreases fs.bound - level
    {
      ghost var base, weights := Total(files), fs.ChildWeights(this);
      assert w == base + Total(weights);
      var fileSizes := files;
      size := SumSizes(fileSizes);
      var children := subs;
      ghost var exact := base;
      ghost var done: seq<string> := [];
      var left := children.Keys;
      while left != {}
        invariant left <= children.Keys == weights.Keys
        invariant forall j <- left ::
          old(children[j] in fs.nodes && level < children[j].level && weights[j] == fs.Weight(children[j]))
        invariant Distinct(done) && forall j :: j in done <==> j in weights && j !in left
        invariant exact == base + SumOver(done, weights)
        invariant size == Wrap32(exact)
        decreases left
      {
        var k :| k in left;
        var sub := children[k].GetDirectorySize(fs, weights[k]);
        ghost var prevSize, prevExact := size, exact;
        size := Wrap32(size + sub);
        exact := exact + weights[k];
        WrapStep(prevExact, prevSize, weights[k], sub, exact, size);
        DistinctSnoc(done, k);
        SumOverSnoc(done, k, weights);
        done := done + [k];
        left := left - {k};
      }
      SumOverTotal(done, weights);
      assert exact == w;
    }
  }

  /**
   * The sum of the values of `m` as a Java `int` stream sum: added one at a
   * time with wrap-around, which gives the exact sum wrapped to 32 bits.
   */
  method SumSizes(m: map<string, int>) returns (s: int)
    ensures s == Wrap32(Total(m))
  {
    s := 0;
    ghost var exact := 0;
    ghost var done: seq<string> := [];
    var pending := m.Keys;
    while pending != {}
      invariant pending <= m.Keys
      invariant Distinct(done) && forall j :: j in done <==> j in m && j !in pending
      invariant exact == SumOver(done, m)
      invariant s == Wrap32(exact)
      decreases pending
    {
      var k :| k in pending;
      ghost var prevSum, prevExact := s, exact;
      s := Wrap32(s + m[k]);
      exact := exact + m[k];
      AddStep(prevExact, prevSum, m[k], exact, s);
      DistinctSnoc(done, k);
      SumOverSnoc(done, k, m);
      done := done + [k];
      pending := pending - {k};
    }
    SumOverTotal(done, m);
    assert exact == Total(m);
  }

  /**
   * One addition in Java `int` arithmetic: when the running sum is the
   * wrapped value of an exact one, adding `v` to both keeps it so.
   */
  lemma AddStep(prevExact: int, prevSum: int, v: int, exact: int, sum: int)
    requires prevSum == Wrap32(prevExact)
    requires exact == prevExact + v && sum == Wrap32(prevSum + v)
    ensures sum == Wrap32(exact)
  {
    WrapAddLeft(prevExact, v);
  }

  /**
   * One `size += sub` in Java `int` arithmetic: when the running sum and the
   * addend are the wrapped values of exact ones, so is the new sum.
   */
  lemma WrapStep(prevExact: int, prevSize: int, v: int, sub: int, exact: int, size: int)
    requires prevSize == Wrap32(prevExact) && sub == Wrap32(v)
    requires exact == prevExact + v && size == Wrap32(prevSize + sub)
    ensures size == Wrap32(exact)
  {
    WrapAdd(prevExact, v);
  }

  class FileSystem {
    var root: Directory
    var current: Directory
    /** Every directory object of this session, those since deleted included. */
    ghost var nodes: set<Directory>
    /** Above the level of every object in `nodes`. */
    ghost var bound: nat
    /** The names from the root down to `current`. */
    ghost var cwd: seq<string>
    /** The objects along `cwd`: the root first, `current` last. */
    ghost var trail: seq<Directory>

    /**
     * Every object is below `bound`, and each subdirectory object is also in
     * `nodes`, one level below its holder: enough for `Abs` to be defined.
     */
    ghost predicate Ranked()
      reads this`nodes, this`bound, nodes`subs, nodes`level
    {
      && (forall n <- nodes :: n.level < bound)
      && (forall n <- nodes, k <- n.subs :: n.subs[k] in nodes && n.subs[k].level == n.level + 1)
    }

    /**
     * The objects form a forest in which `root` is a root: each child names
     * its parent, is one level below it, and is held under only one name.
     */
    ghost predicate Structural()
      reads this`root, this`nodes, this`bound, nodes`subs, nodes`parent, nodes`level
    {
      && Ranked()
      && root in nodes && root.parent == null
      && (forall n <- nodes :: (n.parent == null) == (n.level == 0))
      && (forall n {:trigger n.parent} | n in nodes && n.parent != null ::
            n.parent in nodes && n.level == n.parent.level + 1)
      && (forall n <- nodes, k <- n.subs :: n.subs[k].parent == n)
      && (forall n <- nodes, j <- n.subs, k <- n.subs :: j != k ==> n.subs[j] != n.subs[k])
    }

    /**
     * The objects `t` are met in turn when the names `p` are followed down
     * from `t[0]`, which is at level 0.
     */
    ghost predicate Trail(t: seq<Directory>, p: seq<string>)
      reads this`nodes, nodes`subs, nodes`level
    {
      && |t| == |p| + 1
      && (forall i | 0 <= i < |t| :: t[i] in nodes && t[i].level == i)
      && (forall i | 0 <= i < |p| :: p[i] in t[i].subs && t[i].subs[p[i]] == t[i + 1])
    }

    /** `current` is reached from `root` by following the names of `cwd`. */
    ghost predicate Valid()
      reads this, nodes`subs, nodes`parent, nodes`level
    {
      && Structural()
      && Trail(trail, cwd) && trail[0] == root && trail[|cwd|] == current
    }

    /** Stopping one step short of the end of a trail leaves a trail. */
    lemma TrailPrefix(t: seq<Directory>, p: seq<string>)
      requires Trail(t, p) && p != []
      ensures Trail(t[..|t| - 1], p[..|p| - 1])
    {
    }

    /** Going one step further down from the end of a trail gives a trail. */
    lemma TrailExtend(t: seq<Directory>, p: seq<string>, name: string)
      requires Ranked() && Trail(t, p) && name in t[|p|].subs
      ensures Trail(t + [t[|p|].subs[name]], p + [name])
    {
    }

    /** The tree below directory object `n`, as a value. */
    ghost function Abs(n: Directory): Dir
      reads this`nodes, this`bound, nodes`files, nodes`subs, nodes`level
      requires Ranked() && n in nodes
      decreases bound - n.level
    {
      Dir(n.files, map k | k in n.subs :: Abs(n.subs[k]))
    }

    /**
     * The aggregate size of the objects below `n`, read straight off the
     * heap: `n`'s file sizes plus the weights of its subdirectory objects.
     */
    ghost function Weight(n: Directory): int
      reads this`nodes, this`bound, nodes`files, nodes`subs, nodes`level
      requires Ranked() && n in nodes
      decreases bound - n.level, 1
    {
      Total(n.files) + Total(ChildWeights(n))
    }

    /** The weight of each subdirectory object of `n`, by name. */
    ghost function ChildWeights(n: Directory): (r: map<string, int>)
      reads this`nodes, this`bound, nodes`files, nodes`subs, nodes`level
      requires Ranked() && n in nodes
      ensures r.Keys == n.subs.Keys
      decreases bound - n.level, 0
    {
      map k | k in n.subs :: Weight(n.subs[k])
    }

    /** The weight of an object is the aggregate size of the tree it stands for. */
    lemma {:induction false} WeightIsSize(n: Directory)
      requires Ranked() && n in nodes
      ensures Weight(n) == Tree.Size(Abs(n))
      decreases bound - n.level
    {
      forall k | k in n.subs
        ensures ChildWeights(n)[k] == SubSizes(Abs(n))[k]
      {
        WeightIsSize(n.subs[k]);
      }
      assert ChildWeights(n) == SubSizes(Abs(n));
    }

    /**
     * The session these objects stand for: its cursor names a directory,
     * and that directory is the tree below `current`.
     */
    ghost function State(): (r: Session.State)
      reads this, nodes
      requires Valid()
      ensures r.Valid() && r.Current() == Abs(current)
    {
      AbsAlong(0);
      Session.State(Abs(root), cwd)
    }

    /** The ancestor of `n` at level `j`, found by following parent references. */
    ghost function Ancestor(n: Directory, j: nat): (a: Directory)
      reads this`root, this`nodes, this`bound, nodes`subs, nodes`parent, nodes`level
      requires Structural() && n in nodes && j <= n.level
      ensures a in nodes && a.level == j
      decreases n.level
    {
      if n.level == j then n else Ancestor(n.parent, j)
    }

    /** One level further down, the ancestor's parent is the ancestor one level up. */
    lemma {:induction false} AncestorStep(n: Directory, j: nat)
      requires Structural() && n in nodes && 0 < j <= n.level
      ensures Ancestor(n, j).parent == Ancestor(n, j - 1)
      decreases n.level
    {
      if n.level != j {
        AncestorStep(n.parent, j);
      }
    }

    /** The ancestors of `current` are the objects along `cwd`. */
    lemma {:induction false} TrailAncestor(j: nat)
      requires Valid() && j <= |cwd|
      ensures Ancestor(current, j) == trail[j]
      decreases |cwd| - j
    {
      if j < |cwd| {
        TrailAncestor(j + 1);
        AncestorStep(current, j + 1);
        assert trail[j].subs[cwd[j]] == trail[j + 1];
      }
    }

    /** Following `cwd` from the object at step `i` reaches the current directory. */
    lemma {:induction false} AbsAlong(i: nat)
      requires Valid() && i <= |cwd|
      ensures At(Abs(trail[i]), cwd[i..]) == Some(Abs(current))
      decreases |cwd| - i
    {
      if i < |cwd| {
        AbsAlong(i + 1);
        var t := trail[i];
        assert cwd[i] in t.subs && t.subs[cwd[i]] == trail[i + 1];
        assert Abs(t).subs[cwd[i]] == Abs(trail[i + 1]);
        assert cwd[i..][0] == cwd[i] && cwd[i..][1..] == cwd[i + 1..];
      }
    }

    constructor ()
      ensures Valid() && fresh(nodes)
      ensures State() == Session.Initial
    {
      var r := new Directory("root", null);
      root := r;
      current := r;
      nodes := {r};
      bound := 1;
      cwd := [];
      trail := [r];
      new;
      assert Abs(root).subs == map[];
    }

    /**
     * `cd name`: to the parent for `..` (staying at the root), into the
     * subdirectory `name` when it exists, and otherwise nowhere, with
     * `missing` set to report "Directory does not exist".
     */
    method Cd(name: string) returns (missing: bool)
      requires Valid()
      modifies this`current, this`cwd, this`trail
      ensures Valid()
      ensures (State(), missing) == old(State()).Cd(name)
    {
      if name == ".." {
        CdUp();
        missing := false;
      } else {
        missing := CdInto(name);
      }
    }

    /** The `..` branch of `Cd`: to the parent, unless the cursor is at the root. */
    method CdUp()
      requires Valid()
      modifies this`current, this`cwd, this`trail
      ensures Valid()
      ensures (State(), false) == old(State()).Cd("..")
    {
      if current.parent != null {
        assert trail[|cwd| - 1].subs[cwd[|cwd| - 1]] == current;
        TrailPrefix(trail, cwd);
        current, cwd, trail := current.parent, cwd[..|cwd| - 1], trail[..|trail| - 1];
        MovedUp(this);
      } else {
        assert cwd == [];
        Session.CdUpAtRoot(State());
      }
    }

    /** The other branch of `Cd`: into subdirectory `name`, or report that it is missing. */
    method CdInto(name: string) returns (missing: bool)
      requires Valid() && name != ".."
      modifies this`current, this`cwd, this`trail
      ensures Valid()
      ensures (State(), missing) == old(State()).Cd(name)
    {
      var d := current.GetSubDirectory(name);
      if d != null {
        TrailExtend(trail, cwd, name);
        current, cwd, trail := d, cwd + [name], trail + [d];
        MovedDown(this, name);
        missing := false;
      } else {
        Session.CdMissing(State(), name);
        missing := true;
      }
    }

    /** The names of the files and of the subdirectories of the current directory. */
    method Ls() returns (fileNames: set<string>, folderNames: set<string>)
      requires Valid()
      ensures fileNames == State().Current().files.Keys
      ensures folderNames == State().Current().subs.Keys
    {
      fileNames, folderNames := current.ListDirectory();
    }

    /** The aggregate size of the current directory, as a Java `int`. */
    method Size() returns (size: int)
      requires Valid()
      ensures size == Wrap32(Tree.Size(State().Current()))
    {
      WeightIsSize(current);
      ghost var w := Tree.Size(State().Current());
      size := current.GetDirectorySize(this, w);
      assert State() == old(State());
    }

    /** `createfile name size` in the current directory. */
    method CreateFile(name: string, size: int)
      requires Valid()
      modifies current`files
      ensures Valid()
      ensures State() == old(State()).CreateFile(name, size)
    {
      current.AddFile(name, size);
      FilesChanged(this);
    }

    /** `createfolder name` in the current directory. */
    method CreateFolder(name: string)
      requires Valid()
      modifies this`nodes, this`bound, current`subs
      ensures Valid() && old(nodes) <= nodes && fresh(nodes - old(nodes))
      ensures State() == old(State()).CreateFolder(name)
    {
      current.AddFolder(name);
      ghost var d := current.subs[name];
      nodes := nodes + {d};
      bound := if d.level < bound then bound else d.level + 1;
      FolderAdded(this, name);
    }

    /** `delete f name` in the current directory. */
    method DeleteFile(name: string)
      requires Valid()
      modifies current`files
      ensures Valid()
      ensures State() == old(State()).DeleteFile(name)
    {
      current.DeleteFile(name);
      FilesChanged(this);
    }

    /** `delete d name` in the current directory. */
    method DeleteFolder(name: string)
      requires Valid()
      modifies current`subs
      ensures Valid()
      ensures State() == old(State()).DeleteFolder(name)
    {
      current.DeleteFolder(name);
      FolderRemoved(this, name);
    }
  }

  /**
   * Changing the files of the current directory, and nothing else, changes
   * the session by putting in the current directory with its new files.
   */
  twostate lemma FilesChanged(fs: FileSystem)
    requires old(fs.Valid()) && unchanged(fs)
    requires unchanged(old(fs.nodes) - {fs.current})
    requires unchanged(fs.current`subs, fs.current`parent, fs.current`level)
    ensures fs.Valid()
    ensures fs.State() == old(fs.State()).Put(old(fs.State()).Current().(files := fs.current.files))
  {
    Changed(fs);
    assert fs.Abs(fs.current).subs == old(fs.Abs(fs.current)).subs;
  }

  /**
   * Removing subdirectory `name` of the current directory, and changing
   * nothing else, changes the session by deleting that folder.
   */
  twostate lemma FolderRemoved(fs: FileSystem, new name: string)
    requires old(fs.Valid()) && unchanged(fs)
    requires unchanged(old(fs.nodes) - {fs.current})
    requires unchanged(fs.current`files, fs.current`parent, fs.current`level)
    requires fs.current.subs == old(fs.current.subs) - {name}
    ensures fs.Valid()
    ensures fs.State() == old(fs.State()).DeleteFolder(name)
  {
    SubsShrunk(fs);
    Changed(fs);
    AbsDropped(fs, fs.current, name);
  }

  /**
   * A directory object that lost subdirectory `name`, and whose other
   * subdirectories read as the same trees, reads as its old tree without
   * `name`.
   */
  twostate lemma AbsDropped(fs: FileSystem, new t: Directory, new name: string)
    requires old(fs.Ranked()) && fs.Ranked() && t in old(fs.nodes) && t in fs.nodes
    requires t.subs == old(t.subs) - {name}
    requires forall k | k in t.subs && k in old(t.subs) && t.subs[k] == old(t.subs[k]) ::
      fs.Abs(t.subs[k]) == old(fs.Abs(t.subs[k]))
    ensures fs.Abs(t).subs == old(fs.Abs(t)).subs - {name}
  {
    ghost var now, before := fs.Abs(t).subs, old(fs.Abs(t)).subs - {name};
    forall k | k in now
      ensures now[k] == before[k]
    {
    }
  }

  /**
   * Dropping subdirectories of the current directory, and changing nothing
   * else, keeps the forest well formed.
   */
  twostate lemma SubsShrunk(fs: FileSystem)
    requires old(fs.Structural()) && unchanged(fs)
    requires unchanged(old(fs.nodes) - {fs.current})
    requires unchanged(fs.current`parent, fs.current`level)
    requires fs.current in old(fs.nodes)
    requires forall k <- fs.current.subs :: k in old(fs.current.subs) && fs.current.subs[k] == old(fs.current.subs[k])
    ensures fs.Structural()
  {
  }

  /**
   * Installing a new, empty directory object as subdirectory `name` of the
   * current directory, and changing nothing else, changes the session by
   * creating that folder.
   */
  twostate lemma FolderAdded(fs: FileSystem, new name: string)
    requires old(fs.Valid())
    requires unchanged(fs`root, fs`current, fs`cwd, fs`trail)
    requires unchanged(old(fs.nodes) - {fs.current})
    requires unchanged(fs.current`files, fs.current`parent, fs.current`level)
    requires name in fs.current.subs && fs.current.subs == old(fs.current.subs)[name := fs.current.subs[name]]
    requires var d := fs.current.subs[name];
      && fresh(d) && d.parent == fs.current && d.level == fs.current.level + 1
      && d.files == map[] && d.subs == map[]
      && fs.nodes == old(fs.nodes) + {d} && fs.bound == if d.level < old(fs.bound) then old(fs.bound) else d.level + 1
    ensures fs.Valid()
    ensures fs.State() == old(fs.State()).CreateFolder(name)
  {
    ghost var d := fs.current.subs[name];
    FolderInstalled(fs, name);
    Changed(fs);
    assert fs.Abs(d) == Empty;
    AbsAdded(fs, fs.current, name);
  }

  /**
   * Installing a new, empty directory object one level below the current
   * directory, with the current directory as its parent, keeps the forest
   * well formed.
   */
  twostate lemma FolderInstalled(fs: FileSystem, new name: string)
    requires old(fs.Structural())
    requires unchanged(fs`root, fs`current)
    requires fs.current in old(fs.nodes)
    requires unchanged(old(fs.nodes) - {fs.current})
    requires unchanged(fs.current`files, fs.current`parent, fs.current`level)
    requires name in fs.current.subs && fs.current.subs == old(fs.current.subs)[name := fs.current.subs[name]]
    requires var d := fs.current.subs[name];
      && fresh(d) && d.parent == fs.current && d.level == fs.current.level + 1
      && d.files == map[] && d.subs == map[]
      && fs.nodes == old(fs.nodes) + {d} && fs.bound == if d.level < old(fs.bound) then old(fs.bound) else d.level + 1
    ensures fs.Structural()
  {
    ghost var c, d := fs.current, fs.current.subs[name];
    forall n <- old(fs.nodes)
      ensures n != d && n.parent == old(n.parent) && n.level == old(n.level)
      ensures n != c ==> n.subs == old(n.subs)
    {
    }
    forall n <- fs.nodes, k <- n.subs
      ensures n.subs[k] in fs.nodes && n.subs[k].level == n.level + 1 && n.subs[k].parent == n
    {
      if n == c && k != name {
        assert n.subs[k] == old(n.subs[k]);
      }
    }
    forall n <- fs.nodes, j <- n.subs, k <- n.subs | j != k
      ensures n.subs[j] != n.subs[k]
    {
      if n == c && j != name && k != name {
        assert n.subs[j] == old(n.subs[j]) && n.subs[k] == old(n.subs[k]);
      }
    }
  }

  /**
   * A directory object that gained subdirectory `name` reading as the empty
   * tree, and whose other subdirectories read as the same trees, reads as
   * its old tree with `name` set to the empty tree.
   */
  twostate lemma AbsAdded(fs: FileSystem, new t: Directory, new name: string)
    requires old(fs.Ranked()) && fs.Ranked() && t in old(fs.nodes) && t in fs.nodes
    requires name in t.subs && t.subs == old(t.subs)[name := t.subs[name]]
    requires fs.Abs(t.subs[name]) == Empty
    requires forall k | k in t.subs && k in old(t.subs) && t.subs[k] == old(t.subs[k]) ::
      fs.Abs(t.subs[k]) == old(fs.Abs(t.subs[k]))
    ensures fs.Abs(t).subs == old(fs.Abs(t)).subs[name := Empty]
  {
    ghost var now, before := fs.Abs(t).subs, old(fs.Abs(t)).subs[name := Empty];
    forall k | k in now
      ensures now[k] == before[k]
    {
      if k != name {
        assert t.subs[k] == old(t.subs[k]);
      }
    }
  }

  /**
   * After a change to the files or subdirectories of the current directory
   * alone that keeps the forest well formed, the session is valid and is
   * the old one with the current directory replaced by the new tree below
   * `current`, in which every subdirectory object kept reads as before.
   */
  twostate lemma Changed(fs: FileSystem)
    requires old(fs.Valid()) && fs.Structural()
    requires unchanged(fs`root, fs`current, fs`cwd, fs`trail)
    requires old(fs.nodes) <= fs.nodes
    requires unchanged(old(fs.nodes) - {fs.current})
    requires unchanged(fs.current`parent, fs.current`level)
    ensures fs.Valid()
    ensures fs.State() == old(fs.State()).Put(fs.Abs(fs.current))
    ensures forall k | k in fs.current.subs && k in old(fs.current.subs) && fs.current.subs[k] == old(fs.current.subs[k]) ::
      fs.Abs(fs.current.subs[k]) == old(fs.Abs(fs.current.subs[k]))
  {
    assert fs.Trail(fs.trail, fs.cwd) by {
      forall i | 0 <= i < |fs.cwd|
        ensures fs.trail[i] != fs.current
      {
        assert fs.trail[i].level == i;
      }
    }
    assert OnlyChanged(fs, fs.current);
    ChildrenUnchanged(fs, fs.current);
    AbsPath(fs, 0);
  }

  /**
   * Moving the cursor leaves the objects as they were: when the new cursor
   * was a trail beforehand, the session is valid and its tree is the same.
   */
  twostate lemma CursorMoved(fs: FileSystem, new t: seq<Directory>, new p: seq<string>)
    requires old(allocated(t)) && old(fs.Structural()) && old(fs.Trail(t, p))
    requires unchanged(old(fs.nodes)) && unchanged(fs`root, fs`nodes, fs`bound)
    requires fs.trail == t && fs.cwd == p && t[0] == fs.root && t[|p|] == fs.current
    ensures fs.Valid() && fs.Abs(fs.root) == old(fs.Abs(fs.root))
  {
  }

  /** Moving the cursor to the parent of the current directory is `cd ..` below the root. */
  twostate lemma MovedUp(fs: FileSystem)
    requires old(fs.Valid()) && old(fs.current.parent) != null
    requires old(fs.Trail(fs.trail[..|fs.trail| - 1], fs.cwd[..|fs.cwd| - 1]))
    requires unchanged(old(fs.nodes)) && unchanged(fs`root, fs`nodes, fs`bound)
    requires fs.current == old(fs.current.parent)
    requires fs.cwd == old(fs.cwd[..|fs.cwd| - 1]) && fs.trail == old(fs.trail[..|fs.trail| - 1])
    ensures fs.Valid() && (fs.State(), false) == old(fs.State()).Cd("..")
  {
    CursorMoved(fs, fs.trail, fs.cwd);
  }

  /** Moving the cursor into subdirectory `name` of the current directory is `cd name`. */
  twostate lemma MovedDown(fs: FileSystem, new name: string)
    requires old(fs.Valid()) && name != ".." && name in old(fs.current.subs)
    requires old(fs.Trail(fs.trail + [fs.current.subs[name]], fs.cwd + [name]))
    requires unchanged(old(fs.nodes)) && unchanged(fs`root, fs`nodes, fs`bound)
    requires fs.current == old(fs.current.subs[name])
    requires fs.cwd == old(fs.cwd) + [name] && fs.trail == old(fs.trail) + [fs.current]
    ensures fs.Valid() && (fs.State(), false) == old(fs.State()).Cd(name)
  {
    CursorMoved(fs, fs.trail, fs.cwd);
  }

  /**
   * The conditions under which one operation has changed only the files or
   * subdirectories of `c`, and perhaps added new objects.
   */
  twostate predicate OnlyChanged(fs: FileSystem, new c: Directory)
    reads fs, fs.nodes
  {
    && old(fs.Structural()) && fs.Structural()
    && c in old(fs.nodes) && old(fs.nodes) <= fs.nodes
    && (forall n <- old(fs.nodes) :: n.parent == old(n.parent) && n.level == old(n.level))
    && (forall n <- old(fs.nodes) :: n != c ==> n.files == old(n.files) && n.subs == old(n.subs))
  }

  /**
   * A directory object that is not `c` and does not have `c` below it reads
   * as the same tree after a change to `c` alone.
   */
  twostate lemma {:induction false} AbsFrame(fs: FileSystem, new c: Directory, new s: Directory)
    requires OnlyChanged(fs, c) && s in old(fs.nodes)
    requires c.level < s.level || fs.Ancestor(c, s.level) != s
    ensures fs.Abs(s) == old(fs.Abs(s))
    decreases old(fs.bound) - s.level
  {
    forall k | k in s.subs
      ensures fs.Abs(s.subs[k]) == old(fs.Abs(s.subs[k]))
    {
      var t := s.subs[k];
      if s.level < c.level {
        fs.AncestorStep(c, t.level);
      }
      AbsFrame(fs, c, t);
    }
  }

  /** After a change to `c` alone, every subdirectory of `c` reads as the same tree. */
  twostate lemma ChildrenUnchanged(fs: FileSystem, new c: Directory)
    requires OnlyChanged(fs, c)
    ensures forall k | k in c.subs && k in old(c.subs) && c.subs[k] == old(c.subs[k]) ::
      fs.Abs(c.subs[k]) == old(fs.Abs(c.subs[k]))
  {
    forall k | k in c.subs && k in old(c.subs) && c.subs[k] == old(c.subs[k])
      ensures fs.Abs(c.subs[k]) == old(fs.Abs(c.subs[k]))
    {
      AbsFrame(fs, c, c.subs[k]);
    }
  }

  /**
   * After a change to the current directory alone, the tree below the
   * object at step `i` of the path is its old value with the directory at
   * the rest of the path replaced by the new tree below `current`.
   */
  twostate lemma {:induction false} AbsPath(fs: FileSystem, new i: nat)
    requires old(fs.Valid()) && fs.Valid() && OnlyChanged(fs, fs.current)
    requires fs.cwd == old(fs.cwd) && fs.trail == old(fs.trail)
    requires fs.current == old(fs.current) && fs.root == old(fs.root)
    requires i <= |fs.cwd|
    ensures At(old(fs.Abs(fs.trail[i])), fs.cwd[i..]).Some?
    ensures fs.Abs(fs.trail[i]) == Replace(old(fs.Abs(fs.trail[i])), fs.cwd[i..], fs.Abs(fs.current))
    decreases |fs.cwd| - i
  {
    if i < |fs.cwd| {
      AbsPath(fs, i + 1);
      var t, u, name := fs.trail[i], fs.trail[i + 1], fs.cwd[i];
      assert fs.cwd[i..][0] == name && fs.cwd[i..][1..] == fs.cwd[i + 1..];
      fs.TrailAncestor(i + 1);
      forall k | k in t.subs && k != name
        ensures fs.Abs(t.subs[k]) == old(fs.Abs(t.subs[k]))
      {
        AbsFrame(fs, fs.current, t.subs[k]);
      }
      AbsHolder(fs, t, name);
    }
  }

  /**
   * A directory object whose own maps are unchanged, and whose
   * subdirectories other than `name` read as the same trees, reads as its
   * old tree with only subdirectory `name` replaced.
   */
  twostate lemma AbsHolder(fs: FileSystem, new t: Directory, new name: string)
    requires old(fs.Ranked()) && fs.Ranked() && t in old(fs.nodes) && t in fs.nodes
    requires t.files == old(t.files) && t.subs == old(t.subs) && name in t.subs
    requires forall k | k in t.subs && k != name :: fs.Abs(t.subs[k]) == old(fs.Abs(t.subs[k]))
    ensures fs.Abs(t) == old(fs.Abs(t)).(subs := old(fs.Abs(t)).subs[name := fs.Abs(t.subs[name])])
  {
    ghost var now, before := fs.Abs(t).subs, old(fs.Abs(t)).subs[name := fs.Abs(t.subs[name])];
    forall k | k in now
      ensures now[k] == before[k]
    {
    }
    assert now == before;
  }
}
