/**
 * The file-system session as a value: the whole tree from the root, and the
 * path of names from the root to the current directory.  The parent of the
 * current directory is the directory at the path without its last name; the
 * root is the one directory with the empty path, and so has no parent.
 *
 * `Heap.FileSystem` is proved to move through exactly these states.
 */
module Session {
  import opened Tree

  /** The name that `cd` takes as "go to the parent". */
  const Up: string := ".."

  datatype State = State(root: Dir, cwd: seq<string>)
  {
    /** The cursor names a directory that is reachable from the root. */
    predicate Valid()
    {
      At(root, cwd).Some?
    }

    /** The current directory. */
    function Current(): Dir
      requires Valid()
    {
      At(root, cwd).value
    }

    /**
     * `cd name`.  With `..` the cursor goes to the parent, and stays put at
     * the root.  Otherwise it enters the subdirectory `name` when there is
     * one; when there is not, `missing` is true (the session reports that
     * the directory does not exist) and the cursor stays put.  The tree is
     * never changed, and the cursor stays reachable.
     */
    function Cd(name: string): (r: (State, bool))
      requires Valid()
      ensures r.0.Valid() && r.0.root == root
      ensures r.1 <==> name != Up && name !in Current().subs
      ensures r.1 ==> r.0 == this
      ensures name != Up && !r.1 ==> r.0.cwd == cwd + [name]
      ensures name != Up && !r.1 ==> r.0.Current() == Current().subs[name]
      ensures name == Up ==> r.0.cwd == if cwd == [] then [] else cwd[..|cwd| - 1]
    {
      if name == Up then
        if cwd == [] then (this, false)
        else
          AtPrefix(root, cwd, |cwd| - 1);
          (State(root, cwd[..|cwd| - 1]), false)
      else if name in Current().subs then
        AtSnoc(root, cwd, name);
        (State(root, cwd + [name]), false)
      else (this, true)
    }

    /**
     * The session with the current directory replaced by `d`: the effect of
     * changing the current `Directory` object in place.
     */
    function Put(d: Dir): (r: State)
      requires Valid()
      ensures r.Valid() && r.cwd == cwd && r.Current() == d
    {
      State(Replace(root, cwd, d), cwd)
    }

    /** `createfile name size` in the current directory. */
    function CreateFile(name: string, size: int): (r: State)
      requires Valid()
      ensures r.Valid() && r.cwd == cwd && r.Current() == Current().AddFile(name, size)
    {
      Put(Current().AddFile(name, size))
    }

    /** `createfolder name` in the current directory. */
    function CreateFolder(name: string): (r: State)
      requires Valid()
      ensures r.Valid() && r.cwd == cwd && r.Current() == Current().AddFolder(name)
    {
      Put(Current().AddFolder(name))
    }

    /** `delete f name` in the current directory. */
    function DeleteFile(name: string): (r: State)
      requires Valid()
      ensures r.Valid() && r.cwd == cwd && r.Current() == Current().DeleteFile(name)
    {
      Put(Current().DeleteFile(name))
    }

    /** `delete d name` in the current directory. */
    function DeleteFolder(name: string): (r: State)
      requires Valid()
      ensures r.Valid() && r.cwd == cwd && r.Current() == Current().DeleteFolder(name)
    {
      Put(Current().DeleteFolder(name))
    }
  }

  /** A session starts at an empty root. */
  const Initial: State := State(Empty, [])

  /** `cd ..` at the root changes nothing and reports nothing. */
  lemma CdUpAtRoot(s: State)
    requires s.Valid() && s.cwd == []
    ensures s.Cd(Up) == (s, false)
  {
  }

  /**
   * `cd ..` anywhere below the root moves to exactly the parent: the
   * directory that holds the current one under the last name of the path.
   */
  lemma CdUpIsParent(s: State)
    requires s.Valid() && s.cwd != []
    ensures var t := s.Cd(Up).0;
      && t.cwd == s.cwd[..|s.cwd| - 1]
      && s.cwd[|s.cwd| - 1] in t.Current().subs
      && t.Current().subs[s.cwd[|s.cwd| - 1]] == s.Current()
  {
    var n := |s.cwd| - 1;
    assert s.cwd == s.cwd[..n] + [s.cwd[n]];
    AtSnoc(s.root, s.cwd[..n], s.cwd[n]);
  }

  /** A successful `cd name` followed by `cd ..` comes back to where it started. */
  lemma CdDownUp(s: State, name: string)
    requires s.Valid() && name != Up && name in s.Current().subs
    ensures s.Cd(name).0.Cd(Up) == (s, false)
  {
    var t := s.Cd(name).0;
    assert t.cwd == s.cwd + [name];
    assert t.cwd[..|t.cwd| - 1] == s.cwd;
  }

  /** A `cd` to a name that is neither `..` nor a subdirectory changes nothing and reports. */
  lemma CdMissing(s: State, name: string)
    requires s.Valid() && name != Up && name !in s.Current().subs
    ensures s.Cd(name) == (s, true)
  {
  }

  /**
   * Changing the current directory leaves every directory that is neither
   * above nor below it exactly as it was.
   */
  lemma PutElsewhere(s: State, d: Dir, q: seq<string>)
    requires s.Valid() && !IsPrefix(s.cwd, q) && !IsPrefix(q, s.cwd)
    ensures At(s.Put(d).root, q) == At(s.root, q)
  {
    ReplaceElsewhere(s.root, s.cwd, d, q);
  }

  /**
   * Changing the current directory from `c` to `d` changes the aggregate
   * size of every directory above it (the root included) by exactly
   * Size(d) - Size(c).
   */
  lemma PutSizeAbove(s: State, d: Dir, q: seq<string>)
    requires s.Valid() && IsPrefix(q, s.cwd)
    ensures At(s.root, q).Some? && At(s.Put(d).root, q).Some?
    ensures Size(At(s.Put(d).root, q).value)
         == Size(At(s.root, q).value) - Size(s.Current()) + Size(d)
  {
    ReplaceAbove(s.root, s.cwd, d, q);
    AtSplit(s.root, s.cwd, |q|);
    assert s.cwd[..|q|] == q;
    SizeReplace(At(s.root, q).value, s.cwd[|q|..], d);
  }
}
