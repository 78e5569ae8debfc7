/**
 * The part of the local file system the downloader touches: a set of
 * directory paths and a set of file paths, both as the strings the program
 * builds. `os.path.isdir`, `os.path.isfile`, `os.makedirs`,
 * `urllib.request.urlretrieve` and `open(path, "x")` act on it.
 */
module Files {
  /** A snapshot of the file system. */
  datatype Disk = Disk(dirs: set<string>, files: set<string>)

  /**
   * The directories `os.makedirs(path)` makes sure exist: every prefix of
   * `path` that ends just before a `/`, and `path` itself.
   */
  function DirPrefixes(path: string): (r: set<string>)
    ensures path != [] ==> path in r
    ensures forall q :: q in r ==> q != [] && q <= path
  {
    assert path != [] ==> path == path[..|path|];
    set i | 0 < i <= |path| && (i == |path| || path[i] == '/') :: path[..i]
  }

  /** A directory below `parent` has all of `parent`'s ancestors, and `parent` itself. */
  lemma DirPrefixesOfChild(parent: string, name: string)
    requires parent != []
    ensures DirPrefixes(parent) <= DirPrefixes(parent + "/" + name)
  {
    var child := parent + "/" + name;
    forall q | q in DirPrefixes(parent) ensures q in DirPrefixes(child) {
      var i :| 0 < i <= |parent| && (i == |parent| || parent[i] == '/') && q == parent[..i];
      assert child[i] == '/';
      assert child[..i] == q;
    }
  }

  /** The ancestors of an ancestor are ancestors. */
  lemma DirPrefixesClosed(path: string, q: string)
    requires q in DirPrefixes(path)
    ensures DirPrefixes(q) <= DirPrefixes(path)
  {
    var i :| 0 < i <= |path| && (i == |path| || path[i] == '/') && q == path[..i];
    forall r | r in DirPrefixes(q) ensures r in DirPrefixes(path) {
      var j :| 0 < j <= |q| && (j == |q| || q[j] == '/') && r == q[..j];
      assert r == path[..j];
    }
  }

  /** Directory sets in which every directory's ancestors exist, as on a real disk. */
  ghost predicate Closed(dirs: set<string>)
  {
    forall d :: d in dirs ==> DirPrefixes(d) <= dirs
  }

  /** Adding the ancestors of a path keeps a directory set closed. */
  lemma ClosedAdd(dirs: set<string>, path: string)
    requires Closed(dirs)
    ensures Closed(dirs + DirPrefixes(path))
  {
    forall d | d in dirs + DirPrefixes(path) ensures DirPrefixes(d) <= dirs + DirPrefixes(path) {
      if d in DirPrefixes(path) {
        DirPrefixesClosed(path, d);
      }
    }
  }

  /** Making a directory that exists, in a closed set, adds nothing. */
  lemma ClosedHas(dirs: set<string>, path: string)
    requires Closed(dirs) && path in dirs
    ensures dirs + DirPrefixes(path) == dirs
  {
  }

  class FileSystem {
    var dirs: set<string>
    var files: set<string>

    ghost predicate Valid()
      reads this
    {
      Closed(dirs)
    }

    function State(): Disk
      reads this
    {
      Disk(dirs, files)
    }

    constructor (dirs0: set<string>, files0: set<string>)
      requires Closed(dirs0)
      ensures Valid() && dirs == dirs0 && files == files0
    {
      dirs := dirs0;
      files := files0;
    }

    /** `os.path.isdir(path)`. */
    function IsDir(path: string): bool
      reads this
    {
      path in dirs
    }

    /** `os.path.isfile(path)`. */
    function IsFile(path: string): bool
      reads this
    {
      path in files
    }

    /** `os.makedirs(path)`: the directory and all its ancestors exist afterwards. */
    method MakeDirs(path: string)
      requires Valid() && path !in dirs
      modifies this
      ensures Valid()
      ensures dirs == old(dirs) + DirPrefixes(path) && files == old(files)
    {
      ClosedAdd(dirs, path);
      dirs := dirs + DirPrefixes(path);
    }

    /**
     * `urllib.request.urlretrieve(url, dir + "/" + name)`: the file is created
     * or overwritten. Its contents, the image behind `url`, are not modelled.
     */
    method Retrieve(url: string, dir: string, name: string)
      requires dir in dirs
      modifies this
      ensures dirs == old(dirs) && files == old(files) + {dir + "/" + name}
    {
      files := files + {dir + "/" + name};
    }

    /** `open(dir + "/" + name, "x")`: creates an empty file that must not exist yet. */
    method CreateExclusive(dir: string, name: string)
      requires dir in dirs && dir + "/" + name !in files
      modifies this
      ensures dirs == old(dirs) && files == old(files) + {dir + "/" + name}
    {
      files := files + {dir + "/" + name};
    }
  }
}
