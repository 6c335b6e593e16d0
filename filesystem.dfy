/**
 * A snapshot of the filesystem: a finite map from resolved paths to regular
 * files (their bytes) and directories, shaped as a tree below "/".
 */
module FileSystems {
  import opened Paths

  type byte = b: int | 0 <= b < 256

  datatype Node = File(bytes: seq<byte>) | Dir

  function Parent(k: Path): Path
    requires k != []
  {
    k[..|k| - 1]
  }

  /** "/" is a directory, and every other entry sits in a directory. */
  predicate IsTree(m: map<Path, Node>) {
    && [] in m && m[[]].Dir?
    && forall k {:trigger Parent(k)} :: k in m && k != [] ==> Parent(k) in m && m[Parent(k)].Dir?
  }

  type FileSystem = m: map<Path, Node> | IsTree(m) witness map[[] := Dir]

  /** Every proper ancestor of an entry is an existing directory. */
  lemma {:induction false} AncestorIsDir(fs: FileSystem, a: Path, k: Path)
    requires k in fs && a < k
    ensures a in fs && fs[a].Dir?
    decreases |k|
  {
    assert k != [];
    if a != Parent(k) {
      assert a < Parent(k);
      AncestorIsDir(fs, a, Parent(k));
    }
  }

  datatype OsError =
    | FileNotFound(path: Path)    // FileNotFoundError: the parent does not exist (also when the OS would say an ancestor further up is a regular file)
    | NotADirectory(path: Path)   // NotADirectoryError: the parent is a regular file

  datatype MkdirResult = Made(fs: FileSystem) | MkdirFailed(error: OsError)

  /**
   * `Path.mkdir(exist_ok=True)` without `parents=True`, for a path that does
   * not exist yet: only the last level is created.
   */
  function MakeDir(fs: FileSystem, p: Path): (r: MkdirResult)
    requires p !in fs
    ensures p != []
    ensures r.Made? <==> Parent(p) in fs && fs[Parent(p)].Dir?
    ensures r.Made? ==> r.fs.Keys == fs.Keys + {p} && r.fs[p] == Dir
    ensures r.Made? ==> forall k :: k in fs ==> r.fs[k] == fs[k]
    ensures r.MkdirFailed? ==> r.error.path == p
  {
    var parent := p[..|p| - 1];
    if parent !in fs then MkdirFailed(FileNotFound(p))
    else if fs[parent].File? then MkdirFailed(NotADirectory(p))
    else
      var m := fs[p := Dir];
      assert IsTree(m) by {
        forall k | k in m && k != [] ensures Parent(k) in m && m[Parent(k)].Dir? {
          if k != p {
            assert k in fs;
          }
        }
      }
      Made(m)
  }
}
