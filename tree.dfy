/**
 * The directory tree as a value.
 *
 * A `Dir` is what one `Directory` object of the file-system simulator holds,
 * together with everything below it: the map from file name to file size and
 * the map from subdirectory name to subdirectory.  The operations here are the
 * value-level meaning of the `Directory` mutators, of the recursive size
 * computation and of following a path of names down the tree; the classes in
 * module `Heap` are proved to behave like them.
 */
module Tree {

  datatype Option<T> = None | Some(value: T)

  /** The number of values of Java's 32-bit `int`, and its least value. */
  const Modulus: int := 0x1_0000_0000
  const MinInt: int := -0x8000_0000

  /**
   * The Java `int` that an exact integer wraps around to: the one value in
   * the `int` range that differs from `x` by a multiple of 2^32.
   */
  function Wrap32(x: int): (r: int)
    ensures MinInt <= r < MinInt + Modulus
    ensures MinInt <= x < MinInt + Modulus ==> r == x
  {
    (x - MinInt) % Modulus + MinInt
  }

  /** Two integers that differ by a multiple of 2^32 wrap to the same `int`. */
  lemma WrapCongruent(x: int, y: int)
    requires (x - y) % Modulus == 0
    ensures Wrap32(x) == Wrap32(y)
  {
    var q := (x - y) / Modulus;
    assert x - y == q * Modulus;
    var rx, ry := (x - MinInt) % Modulus, (y - MinInt) % Modulus;
    var qx, qy := (x - MinInt) / Modulus, (y - MinInt) / Modulus;
    assert x - MinInt == qx * Modulus + rx;
    assert y - MinInt == qy * Modulus + ry;
    assert rx - ry == (q + qy - qx) * Modulus;
  }

  /** Wrapping one addend first does not change the wrapped sum. */
  lemma WrapAddLeft(a: int, b: int)
    ensures Wrap32(Wrap32(a) + b) == Wrap32(a + b)
  {
    var q := (a - MinInt) / Modulus;
    assert a - MinInt == q * Modulus + (a - MinInt) % Modulus;
    assert Wrap32(a) + b - (a + b) == -q * Modulus;
    WrapCongruent(Wrap32(a) + b, a + b);
  }

  /**
   * Adding in Java `int` arithmetic, one addend at a time, gives the wrapped
   * exact sum.
   */
  lemma WrapAdd(a: int, b: int)
    ensures Wrap32(Wrap32(a) + Wrap32(b)) == Wrap32(a + b)
  {
    WrapAddLeft(a, Wrap32(b));
    WrapAddLeft(b, a);
  }

  /** A directory: file sizes by file name, and subdirectories by name. */
  datatype Dir = Dir(files: map<string, int>, subs: map<string, Dir>)
  {
    /**
     * Puts a file `name` of the given size here.  A file already called
     * `name` is replaced, not added to; nothing else changes.
     */
    function AddFile(name: string, size: int): (r: Dir)
      ensures name in r.files && r.files[name] == size
      ensures r.files.Keys == files.Keys + {name}
      ensures forall k :: k in files && k != name ==> r.files[k] == files[k]
      ensures r.subs == subs
    {
      this.(files := files[name := size])
    }

    /** Removes the file `name`; a missing name leaves the directory as it is. */
    function DeleteFile(name: string): (r: Dir)
      ensures r.files.Keys == files.Keys - {name}
      ensures forall k :: k in r.files ==> r.files[k] == files[k]
      ensures r.subs == subs
      ensures name !in files ==> r == this
    {
      this.(files := files - {name})
    }

    /**
     * Installs a fresh, empty subdirectory `name`.  A subdirectory already
     * called `name` is dropped with all its contents; nothing else changes.
     */
    function AddFolder(name: string): (r: Dir)
      ensures name in r.subs && r.subs[name] == Empty
      ensures r.subs.Keys == subs.Keys + {name}
      ensures forall k :: k in subs && k != name ==> r.subs[k] == subs[k]
      ensures r.files == files
    {
      this.(subs := subs[name := Empty])
    }

    /** Removes the subdirectory `name` and its contents; a missing name is a no-op. */
    function DeleteFolder(name: string): (r: Dir)
      ensures r.subs.Keys == subs.Keys - {name}
      ensures forall k :: k in r.subs ==> r.subs[k] == subs[k]
      ensures r.files == files
      ensures name !in subs ==> r == this
    {
      this.(subs := subs - {name})
    }
  }

  /** The directory with no files and no subdirectories. */
  const Empty: Dir := Dir(map[], map[])

  /**
   * The sum of the values of a map.  Which key is taken off first is left
   * open; `TotalRemove` shows that the choice does not matter.
   */
  ghost function Total(m: map<string, int>): (r: int)
    ensures (forall k :: k in m ==> 0 <= m[k]) ==> 0 <= r
    decreases m.Keys
  {
    if m == map[] then 0 else var k :| k in m; m[k] + Total(m - {k})
  }

  /** Any entry may be taken off first: the total is that value plus the total of the rest. */
  lemma {:induction false} TotalRemove(m: map<string, int>, k: string)
    requires k in m
    ensures Total(m) == m[k] + Total(m - {k})
    decreases m.Keys
  {
    var j :| j in m && Total(m) == m[j] + Total(m - {j});
    if j != k {
      TotalRemove(m - {j}, k);
      TotalRemove(m - {k}, j);
      assert m - {j} - {k} == m - {k} - {j};
    }
  }

  /** No key occurs twice in `ks`. */
  ghost predicate Distinct(ks: seq<string>)
  {
    forall i, j | 0 <= i < j < |ks| :: ks[i] != ks[j]
  }

  /**
   * The values of `m` at the keys `ks`, added in the order of `ks` (a key
   * that `m` lacks adds nothing): the running sum of a loop that visits the
   * entries of `m` one at a time.
   */
  ghost function SumOver(ks: seq<string>, m: map<string, int>): int
  {
    if ks == [] then 0
    else
      var k := ks[|ks| - 1];
      SumOver(ks[..|ks| - 1], m) + (if k in m then m[k] else 0)
  }

  /** Visiting one more key adds its value to the running sum. */
  lemma SumOverSnoc(ks: seq<string>, k: string, m: map<string, int>)
    requires k in m
    ensures SumOver(ks + [k], m) == SumOver(ks, m) + m[k]
  {
    assert (ks + [k])[..|ks|] == ks;
  }

  /** The running sum only looks at the entries for the keys it visits. */
  lemma {:induction false} SumOverAgree(ks: seq<string>, m: map<string, int>, n: map<string, int>)
    requires forall k <- ks :: k in m && k in n && m[k] == n[k]
    ensures SumOver(ks, m) == SumOver(ks, n)
  {
    if ks != [] {
      SumOverAgree(ks[..|ks| - 1], m, n);
    }
  }

  /**
   * Visiting every key of `m` exactly once, in any order, sums to the total
   * of `m`.
   */
  lemma {:induction false} SumOverTotal(ks: seq<string>, m: map<string, int>)
    requires Distinct(ks) && forall k :: k in ks <==> k in m
    ensures SumOver(ks, m) == Total(m)
  {
    if ks == [] {
      assert m == map[];
    } else {
      var init, k := ks[..|ks| - 1], ks[|ks| - 1];
      assert ks == init + [k];
      var rest := m - {k};
      forall j
        ensures j in init <==> j in rest
      {
        if j in init {
          var i :| 0 <= i < |init| && init[i] == j;
          assert ks[i] == j && ks[|ks| - 1] == k;
        }
      }
      SumOverTotal(init, rest);
      SumOverAgree(init, m, rest);
      TotalRemove(m, k);
    }
  }

  /** Visiting one more key that is not yet visited keeps the keys distinct. */
  lemma DistinctSnoc(ks: seq<string>, k: string)
    requires Distinct(ks) && k !in ks
    ensures Distinct(ks + [k])
  {
  }

  /** Setting one key changes the total by the new value minus the old one (or zero). */
  lemma TotalUpdate(m: map<string, int>, k: string, v: int)
    ensures Total(m[k := v]) == Total(m) - (if k in m then m[k] else 0) + v
  {
    TotalRemove(m[k := v], k);
    if k in m {
      TotalRemove(m, k);
      assert m[k := v] - {k} == m - {k};
    } else {
      assert m[k := v] - {k} == m;
    }
  }

  /** Removing one key takes its value off the total. */
  lemma TotalDelete(m: map<string, int>, k: string)
    ensures Total(m - {k}) == Total(m) - (if k in m then m[k] else 0)
  {
    if k in m {
      TotalRemove(m, k);
    } else {
      assert m - {k} == m;
    }
  }

  /** Whether no file anywhere in `d` has a negative size. */
  ghost predicate NoNegativeSizes(d: Dir)
  {
    && (forall k :: k in d.files ==> 0 <= d.files[k])
    && (forall k :: k in d.subs ==> NoNegativeSizes(d.subs[k]))
  }

  /**
   * The aggregate size of a directory: the sizes of its own files plus the
   * aggregate sizes of its subdirectories, computed exactly.
   */
  ghost function Size(d: Dir): (r: int)
    ensures NoNegativeSizes(d) ==> 0 <= r
    decreases d, 1
  {
    Total(d.files) + Total(SubSizes(d))
  }

  /** The aggregate sizes of the subdirectories of `d`, by name. */
  ghost function SubSizes(d: Dir): (r: map<string, int>)
    ensures r.Keys == d.subs.Keys
    ensures NoNegativeSizes(d) ==> forall k :: k in r ==> 0 <= r[k]
    decreases d, 0
  {
    map k | k in d.subs :: Size(d.subs[k])
  }

  /** Giving `d` the subdirectory `c` under `name` sets that one entry of its subdirectory sizes. */
  lemma SubSizesPut(d: Dir, name: string, c: Dir)
    ensures SubSizes(d.(subs := d.subs[name := c])) == SubSizes(d)[name := Size(c)]
  {
  }

  /** Dropping subdirectory `name` drops that one entry of the subdirectory sizes. */
  lemma SubSizesDrop(d: Dir, name: string)
    ensures SubSizes(d.(subs := d.subs - {name})) == SubSizes(d) - {name}
  {
  }

  /** The empty directory has size 0. */
  lemma SizeEmpty()
    ensures Size(Empty) == 0
  {
    assert SubSizes(Empty) == map[];
  }

  /** Putting file `name` changes the size by the new size minus the replaced one. */
  lemma SizeAddFile(d: Dir, name: string, size: int)
    ensures Size(d.AddFile(name, size))
         == Size(d) - (if name in d.files then d.files[name] else 0) + size
  {
    TotalUpdate(d.files, name, size);
    assert SubSizes(d.AddFile(name, size)) == SubSizes(d);
  }

  /** Deleting file `name` takes exactly its size off. */
  lemma SizeDeleteFile(d: Dir, name: string)
    ensures Size(d.DeleteFile(name))
         == Size(d) - (if name in d.files then d.files[name] else 0)
  {
    TotalDelete(d.files, name);
    assert SubSizes(d.DeleteFile(name)) == SubSizes(d);
  }

  /** Installing an empty folder `name` takes off the size of the folder it replaces. */
  lemma SizeAddFolder(d: Dir, name: string)
    ensures Size(d.AddFolder(name))
         == Size(d) - (if name in d.subs then Size(d.subs[name]) else 0)
  {
    SizeEmpty();
    SubSizesPut(d, name, Empty);
    TotalUpdate(SubSizes(d), name, 0);
  }

  /** Deleting folder `name` takes off its whole aggregate size. */
  lemma SizeDeleteFolder(d: Dir, name: string)
    ensures Size(d.DeleteFolder(name))
         == Size(d) - (if name in d.subs then Size(d.subs[name]) else 0)
  {
    SubSizesDrop(d, name);
    TotalDelete(SubSizes(d), name);
  }

  /** The directory reached from `d` by following the names in `p`, if every step exists. */
  function At(d: Dir, p: seq<string>): (r: Option<Dir>)
    ensures p == [] ==> r == Some(d)
  {
    if p == [] then Some(d)
    else if p[0] in d.subs then At(d.subs[p[0]], p[1..])
    else None
  }

  /** Following `p + [name]` is following `p` and then entering `name`. */
  lemma {:induction false} AtSnoc(d: Dir, p: seq<string>, name: string)
    ensures At(d, p + [name])
         == if At(d, p).Some? && name in At(d, p).value.subs
            then Some(At(d, p).value.subs[name]) else None
  {
    if p != [] {
      assert (p + [name])[1..] == p[1..] + [name];
      if p[0] in d.subs {
        AtSnoc(d.subs[p[0]], p[1..], name);
      }
    }
  }

  /** A prefix of a path that exists exists too. */
  lemma {:induction false} AtPrefix(d: Dir, p: seq<string>, n: nat)
    requires At(d, p).Some? && n <= |p|
    ensures At(d, p[..n]).Some?
  {
    if n > 0 {
      assert p[..n][1..] == p[1..][..n - 1];
      AtPrefix(d.subs[p[0]], p[1..], n - 1);
    }
  }

  /** Following `p` is following its first `n` names and then the rest. */
  lemma {:induction false} AtSplit(d: Dir, p: seq<string>, n: nat)
    requires n <= |p|
    ensures At(d, p) == if At(d, p[..n]).Some? then At(At(d, p[..n]).value, p[n..]) else None
  {
    if n > 0 {
      assert p[..n][1..] == p[1..][..n - 1];
      assert p[1..][n - 1..] == p[n..];
      if p[0] in d.subs {
        AtSplit(d.subs[p[0]], p[1..], n - 1);
      }
    }
  }

  /**
   * `d` with the directory at path `p` replaced by `x`, every directory on
   * the way rebuilt around it: the effect of updating one `Directory` object
   * in place, seen from the top of the tree.
   */
  function Replace(d: Dir, p: seq<string>, x: Dir): (r: Dir)
    requires At(d, p).Some?
    ensures At(r, p) == Some(x)
  {
    if p == [] then x
    else d.(subs := d.subs[p[0] := Replace(d.subs[p[0]], p[1..], x)])
  }

  /** Whether `p` is a prefix of `q`. */
  predicate IsPrefix(p: seq<string>, q: seq<string>)
  {
    |p| <= |q| && q[..|p|] == p
  }

  /**
   * Replacing the directory at `p` leaves every directory whose path branches
   * off from `p` exactly as it was.
   */
  lemma {:induction false} ReplaceElsewhere(d: Dir, p: seq<string>, x: Dir, q: seq<string>)
    requires At(d, p).Some?
    requires !IsPrefix(p, q) && !IsPrefix(q, p)
    ensures At(Replace(d, p, x), q) == At(d, q)
  {
    assert p != [] && q != [];
    if p[0] == q[0] {
      ReplaceElsewhere(d.subs[p[0]], p[1..], x, q[1..]);
    }
  }

  /**
   * A directory above the replaced one (at a prefix `q` of `p`) is itself
   * replaced, by its old value with the change made below it.
   */
  lemma {:induction false} ReplaceAbove(d: Dir, p: seq<string>, x: Dir, q: seq<string>)
    requires At(d, p).Some? && IsPrefix(q, p)
    ensures At(d, q).Some? && At(At(d, q).value, p[|q|..]).Some?
    ensures At(Replace(d, p, x), q) == Some(Replace(At(d, q).value, p[|q|..], x))
  {
    AtSplit(d, p, |q|);
    if q != [] {
      assert p[1..][..|q| - 1] == q[1..];
      ReplaceAbove(d.subs[p[0]], p[1..], x, q[1..]);
      assert p[1..][|q| - 1..] == p[|q|..];
    }
  }

  /**
   * Replacing the directory `y` at `p` by `x` changes the aggregate size of
   * the whole tree by exactly Size(x) - Size(y).
   */
  lemma {:induction false} SizeReplace(d: Dir, p: seq<string>, x: Dir)
    requires At(d, p).Some?
    ensures Size(Replace(d, p, x)) == Size(d) - Size(At(d, p).value) + Size(x)
  {
    if p != [] {
      var c := d.subs[p[0]];
      SizeReplace(c, p[1..], x);
      SubSizesPut(d, p[0], Replace(c, p[1..], x));
      TotalUpdate(SubSizes(d), p[0], Size(Replace(c, p[1..], x)));
    }
  }
}
