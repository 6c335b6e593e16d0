/**
 * The second copy of the memory store, in funes/agent.py. Its reading is the
 * same guard chain as memchat's (MemoryStore.ReadMemoryFile); its listing
 * globs every entry below the root (the pattern `**` joined to `*`) instead
 * of walking directories, and keeps the regular files whose own name is not
 * hidden.
 */
module FunesStore {
  import opened Paths
  import opened Ordering
  import opened FileSystems
  import opened MemoryStore

  /** An entry the recursive glob of the root yields (every entry strictly below it) that is a regular file with a visible name. */
  predicate IsGlobbedFile(fs: FileSystem, root: Path, k: Path) {
    k in fs && root < k && fs[k].File? && !IsHidden(k[|k| - 1])
  }

  function GlobbedFiles(fs: FileSystem, root: Path): set<Path>
  {
    set k | k in fs && IsGlobbedFile(fs, root, k)
  }

  /** The result of funes' `list_memory_files()`. */
  function GlobListing(fs: FileSystem, root: Path): Listing
  {
    ListingOf(fs, root, RelativeStrings(root, GlobbedFiles(fs, root)))
  }

  /** The glob so far has collected exactly the visible files among the entries already seen. */
  ghost predicate GlobbedSoFar(fs: FileSystem, root: Path, keys: seq<Path>, seen: set<Path>) {
    forall k :: IsGlobbedFile(fs, root, k) ==> (k in keys <==> k in seen)
  }

  lemma GlobStep(fs: FileSystem, root: Path, files: seq<string>, keys: seq<Path>, seen: set<Path>, k: Path)
    requires Collected(root, files, keys, GlobbedFiles(fs, root))
    requires GlobbedSoFar(fs, root, keys, seen)
    requires k in fs && root < k && k !in seen
    ensures fs[k].File? && !IsHidden(k[|k| - 1]) ==>
      && Collected(root, files + [RelativeString(root, k)], keys + [k], GlobbedFiles(fs, root))
      && GlobbedSoFar(fs, root, keys + [k], seen + {k})
    ensures !(fs[k].File? && !IsHidden(k[|k| - 1])) ==> GlobbedSoFar(fs, root, keys, seen + {k})
  {
    if fs[k].File? && !IsHidden(k[|k| - 1]) {
      assert IsGlobbedFile(fs, root, k);
      assert k !in keys;
      CollectOne(root, files, keys, GlobbedFiles(fs, root), k);
    }
  }

  /** Once every entry below the root is seen, sorting the collected list gives the listing. */
  lemma GlobComplete(fs: FileSystem, root: Path, files: seq<string>, keys: seq<Path>, seen: set<Path>)
    requires root in fs
    requires Collected(root, files, keys, GlobbedFiles(fs, root))
    requires GlobbedSoFar(fs, root, keys, seen)
    requires forall k :: k in fs && root < k ==> k in seen
    ensures Listed(Sort(files), fs) == GlobListing(fs, root)
  {
    var pool := GlobbedFiles(fs, root);
    forall k | k in pool ensures k in keys && root < k {
      assert IsGlobbedFile(fs, root, k);
    }
    CollectedAll(root, files, keys, pool);
    SortDistinct(files, RelativeStrings(root, pool));
  }

  /**
   * funes' `list_memory_files()`: a missing root is created and gives no
   * files; otherwise every entry the glob yields is kept, relative to the
   * root, when it is a regular file with a visible name, and the list is
   * sorted in place at the end.
   */
  method ListMemoryFiles(fs: FileSystem, root: Path) returns (listing: Listing)
    ensures listing == GlobListing(fs, root)
  {
    if root !in fs {
      var made := MakeDir(fs, root);
      listing := if made.Made? then Listed([], made.fs) else ListRaised(made.error);
      return;
    }
    var entries := set k | k in fs && root < k;
    var files: seq<string> := [];
    ghost var keys: seq<Path> := [];
    ghost var seen: set<Path> := {};
    while entries != {}
      invariant forall k :: k in entries ==> k in fs && root < k && k !in seen
      invariant forall k :: k in fs && root < k ==> k in entries || k in seen
      invariant Collected(root, files, keys, GlobbedFiles(fs, root))
      invariant GlobbedSoFar(fs, root, keys, seen)
      decreases entries
    {
      var file :| file in entries;
      GlobStep(fs, root, files, keys, seen, file);
      if fs[file].File? && !IsHidden(file[|file| - 1]) {
        files := files + [RelativeString(root, file)];
        keys := keys + [file];
      }
      entries := entries - {file};
      seen := seen + {file};
    }
    GlobComplete(fs, root, files, keys, seen);
    files := Sort(files);
    listing := Listed(files, fs);
  }

  /**
   * On a tree of regular files and directories, os.walk and the glob find
   * the same files: each checks only the leaf name, and every ancestor below
   * the root is a directory.
   */
  lemma WalkedFilesAreGlobbedFiles(fs: FileSystem, root: Path)
    ensures WalkedFiles(fs, root) == GlobbedFiles(fs, root)
  {
    forall k | k in fs
      ensures k in WalkedFiles(fs, root) <==> k in GlobbedFiles(fs, root)
    {
      if k != [] {
        if root < k {
          assert root <= Parent(k);
        }
        if root <= Parent(k) {
          assert root < k;
        }
      }
    }
  }

  /** The two copies of `list_memory_files` give the same listing on every tree of regular files and directories, and create a missing root alike. */
  lemma WalkAndGlobAgree(fs: FileSystem, root: Path)
    ensures WalkListing(fs, root) == GlobListing(fs, root)
  {
    WalkedFilesAreGlobbedFiles(fs, root);
  }

  /** With the root present, funes lists each visible regular file below it, and nothing else, in strictly increasing order. */
  lemma GlobListingIsVisibleFiles(fs: FileSystem, root: Path)
    requires root in fs
    ensures GlobListing(fs, root).Listed? && GlobListing(fs, root).after == fs
    ensures StrictlySorted(GlobListing(fs, root).files)
    ensures forall k :: k in fs && root < k ==>
      (RelativeString(root, k) in GlobListing(fs, root).files <==> fs[k].File? && !IsHidden(k[|k| - 1]))
  {
    WalkAndGlobAgree(fs, root);
    ListingIsVisibleFiles(fs, root);
  }
}
