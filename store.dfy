/**
 * The sandboxed memory store of memchat/tools.py: enumerating the regular,
 * non-hidden files below the memory root, and reading one of them by a
 * path relative to that root without ever leaving it.
 */
module MemoryStore {
  import opened Paths
  import opened Ordering
  import opened FileSystems

  /** A file is hidden when its own name starts with '.'. */
  predicate IsHidden(name: string) {
    |name| > 0 && name[0] == '.'
  }

  predicate EndsWith(s: string, suffix: string) {
    |suffix| <= |s| && s[|s| - |suffix|..] == suffix
  }

  lemma AppendEndsWith(head: string, tail: string)
    ensures EndsWith(head + tail, tail)
  {
    assert (head + tail)[|head|..] == tail;
  }

  // ---------------------------------------------------------------- reading

  /** What the UTF-8 codec makes of a file's bytes; the codec itself is passed in. */
  datatype Decoded =
    | Text(text: string)
    | Invalid(start: nat, end: nat, reason: string)   // a UnicodeDecodeError over bytes[start..end]

  type Codec = seq<byte> -> Decoded

  /**
   * `read_text` opens the file in text mode, whose universal-newline
   * translation turns "\r\n" and a lone "\r" into "\n".
   */
  function TranslateNewlines(s: string): (r: string)
    ensures '\r' !in r
    ensures '\r' !in s ==> r == s
    ensures |r| <= |s|
  {
    if s == [] then []
    else if s[0] == '\r' then
      "\n" + (if |s| > 1 && s[1] == '\n' then TranslateNewlines(s[2..]) else TranslateNewlines(s[1..]))
    else
      assert s == [s[0]] + s[1..];
      [s[0]] + TranslateNewlines(s[1..])
  }

  /**
   * The lines of `s` under universal newlines: "\r\n", a lone "\r" and "\n"
   * each end one line, and no line holds either character.
   */
  function UniversalLines(s: string): (lines: seq<string>)
    ensures |lines| >= 1
    ensures forall i :: 0 <= i < |lines| ==> '\n' !in lines[i] && '\r' !in lines[i]
  {
    if s == [] then [""]
    else if s[0] == '\r' && |s| > 1 && s[1] == '\n' then [""] + UniversalLines(s[2..])
    else if s[0] == '\r' || s[0] == '\n' then [""] + UniversalLines(s[1..])
    else
      var rest := UniversalLines(s[1..]);
      [[s[0]] + rest[0]] + rest[1..]
  }

  /** Text-mode reading ends a line exactly where universal newlines do, and keeps each line's text. */
  lemma {:induction false} TranslateNewlinesSplitsLines(s: string)
    ensures Split(TranslateNewlines(s), '\n') == UniversalLines(s)
  {
    if s != [] {
      var t := TranslateNewlines(s);
      if s[0] == '\r' {
        var tail := if |s| > 1 && s[1] == '\n' then s[2..] else s[1..];
        TranslateNewlinesSplitsLines(tail);
        assert t == "\n" + TranslateNewlines(tail);
        assert t[1..] == TranslateNewlines(tail);
      } else if s[0] == '\n' {
        TranslateNewlinesSplitsLines(s[1..]);
        assert t == "\n" + TranslateNewlines(s[1..]);
        assert t[1..] == TranslateNewlines(s[1..]);
      } else {
        TranslateNewlinesSplitsLines(s[1..]);
        assert t == [s[0]] + TranslateNewlines(s[1..]);
        assert t[1..] == TranslateNewlines(s[1..]);
      }
    }
  }

  datatype ReadError =
    | OutsideRoot                                                      // ValueError
    | NotFound                                                         // FileNotFoundError
    | NotAFile                                                         // ValueError
    | BadEncoding(bytes: seq<byte>, start: nat, end: nat, reason: string)   // UnicodeDecodeError

  datatype ReadResult = Read(text: string) | Failed(error: ReadError)

  /**
   * Whether the operating system gets through `parts` from `at`: each piece,
   * ".." included, is looked up in the directory reached so far, which must
   * exist and be a directory. pathlib keeps ".." in `root / path`, so a ".."
   * after a missing piece or a regular file fails even where the folded
   * location exists.
   */
  predicate Reachable(fs: FileSystem, at: Path, parts: seq<string>)
    requires forall i :: 0 <= i < |parts| ==> IsPart(parts[i])
    decreases |parts|
  {
    parts == [] || (at in fs && fs[at].Dir? && Reachable(fs, Step(at, parts[0]), parts[1..]))
  }

  /** `(root / path).exists()`: the walk gets through, and an entry is where it ends. */
  predicate Exists(fs: FileSystem, root: Path, path: string) {
    var p := Parse(path);
    Reachable(fs, if p.absolute then [] else root, p.parts) && Locate(root, path) in fs
  }

  /** A walk without ".." gets through to every location that exists: all its ancestors are directories. */
  lemma {:induction false} ReachableNames(fs: FileSystem, at: Path, parts: seq<string>)
    requires forall i :: 0 <= i < |parts| ==> IsPart(parts[i]) && parts[i] != ".."
    requires Resolve(at, parts) in fs
    ensures Reachable(fs, at, parts)
    decreases |parts|
  {
    if parts != [] {
      var names: seq<Name> := parts;
      ResolveNames(at, names);
      AncestorIsDir(fs, at, at + names);
      ReachableNames(fs, at + [parts[0]], parts[1..]);
    }
  }

  /** For a path without "..", existing is the same as the folded location being present. */
  lemma ExistsWithoutParent(fs: FileSystem, root: Path, path: string)
    requires ".." !in Parse(path).parts
    ensures Exists(fs, root, path) <==> Locate(root, path) in fs
  {
    var p := Parse(path);
    if Locate(root, path) in fs {
      ReachableNames(fs, if p.absolute then [] else root, p.parts);
    }
  }

  /**
   * "name/../f" is not found when `name` is not an existing directory below
   * the root, even though it folds to "f" inside the root, whatever is at "f".
   */
  lemma ParentAfterMissingPiece(fs: FileSystem, root: Path, name: Name, f: Name, utf8: Codec)
    requires !(root + [name] in fs && fs[root + [name]].Dir?)
    ensures Locate(root, name + "/../" + f) == root + [f]
    ensures ReadMemoryFile(fs, root, name + "/../" + f, utf8) == Failed(NotFound)
  {
    ParseParentStep(name, f);
    LocateParentStep(root, name, f);
    assert [name, "..", f][1..] == ["..", f];
    assert !Reachable(fs, root + [name], ["..", f]);
  }

  /**
   * `read_memory_file(path)`: the location `root / path` resolves to must
   * lie at or below the root; then `root / path`, with its ".." pieces
   * walked by the operating system, must exist, be a regular file, and
   * decode as UTF-8, checked in that order.
   */
  function ReadMemoryFile(fs: FileSystem, root: Path, path: string, utf8: Codec): (r: ReadResult)
    ensures r.Read? ==> root <= Locate(root, path) && Exists(fs, root, path) && fs[Locate(root, path)].File?
    ensures !(root <= Locate(root, path)) ==> r == Failed(OutsideRoot)
  {
    var target := Locate(root, path);
    if !(root <= target) then Failed(OutsideRoot)
    else if !Exists(fs, root, path) then Failed(NotFound)
    else if !fs[target].File? then Failed(NotAFile)
    else match utf8(fs[target].bytes)
      case Text(t) => Read(TranslateNewlines(t))
      case Invalid(start, end, reason) => Failed(BadEncoding(fs[target].bytes, start, end, reason))
  }

  function DigitChar(d: nat): char
    requires d < 16
  {
    "0123456789abcdef"[d]
  }

  function Digits(n: nat): (s: string)
    ensures |s| >= 1
    decreases n
  {
    if n < 10 then [DigitChar(n)] else Digits(n / 10) + [DigitChar(n % 10)]
  }

  /** `%zd`. */
  function Decimal(n: int): string {
    if n < 0 then "-" + Digits(-n) else Digits(n)
  }

  /** `%02x`. */
  function HexByte(b: byte): string {
    [DigitChar(b / 16), DigitChar(b % 16)]
  }

  /** `str()` of a UnicodeDecodeError raised by the "utf-8" codec over `bytes`. */
  function DecodeErrorText(bytes: seq<byte>, start: nat, end: nat, reason: string): (m: string)
    ensures EndsWith(m, ": " + reason)
  {
    var head :=
      if start < |bytes| && end == start + 1 then
        "'utf-8' codec can't decode byte 0x" + HexByte(bytes[start]) + " in position " + Decimal(start)
      else
        "'utf-8' codec can't decode bytes in position " + Decimal(start) + "-" + Decimal(end - 1);
    AppendEndsWith(head, ": " + reason);
    head + (": " + reason)
  }

  /** The reason `read_memory_file` gives when the bytes are not UTF-8. */
  function EncodingDetail(path: string, reason: string): string {
    "File " + path + " is not valid UTF-8: " + reason
  }

  /** `str(e)` for each exception `read_memory_file(path)` raises. */
  function ReadErrorMessage(path: string, e: ReadError): (m: string)
    ensures !e.BadEncoding? ==> EndsWith(m, ": " + path)
    ensures e.BadEncoding? ==> EndsWith(m, ": " + EncodingDetail(path, e.reason))
  {
    match e
    case OutsideRoot => AppendEndsWith("Path outside memory directory", ": " + path); "Path outside memory directory" + (": " + path)
    case NotFound => AppendEndsWith("Memory file not found", ": " + path); "Memory file not found" + (": " + path)
    case NotAFile => AppendEndsWith("Path is not a file", ": " + path); "Path is not a file" + (": " + path)
    case BadEncoding(bytes, start, end, reason) => DecodeErrorText(bytes, start, end, EncodingDetail(path, reason))
  }

  /** An escaping path is refused whatever the filesystem holds: the check comes before any lookup. */
  lemma SandboxCheckComesFirst(fs1: FileSystem, fs2: FileSystem, root: Path, path: string, utf8: Codec)
    ensures !(root <= Locate(root, path)) ==>
      ReadMemoryFile(fs1, root, path, utf8) == ReadMemoryFile(fs2, root, path, utf8) == Failed(OutsideRoot)
  {
  }

  /** "../name" leaves a non-empty root unless it names the root itself again. */
  lemma ParentPathIsRefused(fs: FileSystem, root: Path, name: Name, utf8: Codec)
    requires root != [] && name != root[|root| - 1]
    ensures ReadMemoryFile(fs, root, "../" + name, utf8) == Failed(OutsideRoot)
  {
    assert '/' !in "..";
    assert "../" + name == ".." + ['/'] + name;
    SplitAtSeparator("..", '/', name);
    SplitWithoutSeparator(name, '/');
    assert Split("../" + name, '/') == ["..", name];
    assert Parse("../" + name) == PurePath(false, [".."] + [name]);
    ParentEscapes(root, [name]);
  }

  /** An absolute path string is resolved from "/", whatever the root. */
  lemma AbsolutePathIgnoresRoot(root: Path, path: string)
    requires |path| > 0 && path[0] == '/'
    ensures Locate(root, path) == Locate([], path)
  {
  }

  /** An absolute path whose first name differs from the root's is refused. */
  lemma AbsolutePathIsRefused(fs: FileSystem, root: Path, names: seq<Name>, utf8: Codec)
    requires root != [] && names != [] && names[0] != root[0]
    ensures ReadMemoryFile(fs, root, "/" + JoinWith(names, '/'), utf8) == Failed(OutsideRoot)
  {
    LocateAbsoluteNames(root, names);
  }

  /** Inside the root, the failures come in order: not found, then not a file, then bad encoding. */
  lemma ReadFailuresInsideRoot(fs: FileSystem, root: Path, path: string, utf8: Codec)
    requires root <= Locate(root, path)
    ensures var t := Locate(root, path);
      && (!Exists(fs, root, path) <==> ReadMemoryFile(fs, root, path, utf8) == Failed(NotFound))
      && (Exists(fs, root, path) && fs[t].Dir? <==> ReadMemoryFile(fs, root, path, utf8) == Failed(NotAFile))
      && (ReadMemoryFile(fs, root, path, utf8).Failed? && ReadMemoryFile(fs, root, path, utf8).error.BadEncoding?
          <==> Exists(fs, root, path) && fs[t].File? && utf8(fs[t].bytes).Invalid?)
  {
  }

  /** A file that decodes is returned with its text unchanged, up to newline translation. */
  lemma ReadReturnsContent(fs: FileSystem, root: Path, path: string, utf8: Codec)
    requires root <= Locate(root, path)
    requires Exists(fs, root, path) && fs[Locate(root, path)].File?
    requires utf8(fs[Locate(root, path)].bytes).Text?
    ensures var text := utf8(fs[Locate(root, path)].bytes).text;
      && ReadMemoryFile(fs, root, path, utf8) == Read(TranslateNewlines(text))
      && ('\r' !in text ==> ReadMemoryFile(fs, root, path, utf8) == Read(text))
  {
  }

  // ---------------------------------------------------------------- listing

  /** A file os.walk reports below `root`: a non-directory entry of a directory at or below it, with a visible name. */
  predicate IsWalkedFile(fs: FileSystem, root: Path, k: Path) {
    k in fs && k != [] && root <= Parent(k) && fs[Parent(k)].Dir? && fs[k].File? && !IsHidden(k[|k| - 1])
  }

  function WalkedFiles(fs: FileSystem, root: Path): set<Path>
  {
    set k | k in fs && IsWalkedFile(fs, root, k)
  }

  /** The relative path strings of a set of locations strictly below `root`. */
  function RelativeStrings(root: Path, keys: set<Path>): set<string>
  {
    set k | k in keys && root < k :: RelativeString(root, k)
  }

  datatype Listing = Listed(files: seq<string>, after: FileSystem) | ListRaised(error: OsError)

  /**
   * What listing returns once the paths found below the root are known: a
   * missing root is created (one level only) and gives no files; otherwise
   * the found paths are sorted.
   */
  function ListingOf(fs: FileSystem, root: Path, found: set<string>): Listing
  {
    if root !in fs then
      match MakeDir(fs, root)
      case Made(fs') => Listed([], fs')
      case MkdirFailed(e) => ListRaised(e)
    else Listed(SortedSeq(found), fs)
  }

  /** The result of `list_memory_files()`. */
  function WalkListing(fs: FileSystem, root: Path): Listing
  {
    ListingOf(fs, root, RelativeStrings(root, WalkedFiles(fs, root)))
  }

  /** `files` holds the relative path strings of the distinct locations `keys`, all taken from `pool`. */
  ghost predicate Collected(root: Path, files: seq<string>, keys: seq<Path>, pool: set<Path>) {
    && |files| == |keys|
    && NoDuplicates(keys)
    && forall i :: 0 <= i < |keys| ==> keys[i] in pool && root < keys[i] && files[i] == RelativeString(root, keys[i])
  }

  /** Once every location of the pool has been collected, the list holds each of their strings exactly once. */
  lemma CollectedAll(root: Path, files: seq<string>, keys: seq<Path>, pool: set<Path>)
    requires Collected(root, files, keys, pool)
    requires forall k :: k in pool ==> k in keys && root < k
    ensures NoDuplicates(files)
    ensures forall x :: x in files <==> x in RelativeStrings(root, pool)
  {
    forall i, j | 0 <= i < j < |files| ensures files[i] != files[j] {
      if files[i] == files[j] {
        RelativeStringInjective(root, keys[i], keys[j]);
      }
    }
    forall x ensures x in files <==> x in RelativeStrings(root, pool) {
      if x in files {
        var i :| 0 <= i < |files| && files[i] == x;
        assert keys[i] in pool;
      }
      if x in RelativeStrings(root, pool) {
        var k :| k in pool && root < k && x == RelativeString(root, k);
        var i :| 0 <= i < |keys| && keys[i] == k;
        assert files[i] == x;
      }
    }
  }

  /** Appending a new location of the pool keeps the collection consistent. */
  lemma CollectOne(root: Path, files: seq<string>, keys: seq<Path>, pool: set<Path>, k: Path)
    requires Collected(root, files, keys, pool)
    requires k in pool && root < k && k !in keys
    ensures Collected(root, files + [RelativeString(root, k)], keys + [k], pool)
  {
  }

  /** The walk so far has collected exactly the walked files whose directory is done, or that were seen in the current one. */
  ghost predicate WalkedSoFar(fs: FileSystem, root: Path, keys: seq<Path>, walked: set<Path>, seen: set<Path>) {
    forall k :: IsWalkedFile(fs, root, k) ==> (k in keys <==> Parent(k) in walked || k in seen)
  }

  lemma WalkStep(fs: FileSystem, root: Path, files: seq<string>, keys: seq<Path>,
                 walked: set<Path>, seen: set<Path>, dir: Path, k: Path)
    requires Collected(root, files, keys, WalkedFiles(fs, root))
    requires WalkedSoFar(fs, root, keys, walked, seen)
    requires dir !in walked && k !in seen
    requires k in fs && k != [] && Parent(k) == dir && fs[k].File? && dir in fs && root <= dir && fs[dir].Dir?
    ensures !IsHidden(k[|k| - 1]) ==>
      && Collected(root, files + [RelativeString(root, k)], keys + [k], WalkedFiles(fs, root))
      && WalkedSoFar(fs, root, keys + [k], walked, seen + {k})
    ensures IsHidden(k[|k| - 1]) ==> WalkedSoFar(fs, root, keys, walked, seen + {k})
  {
    if !IsHidden(k[|k| - 1]) {
      assert IsWalkedFile(fs, root, k);
      assert k !in keys;
      assert root < k;
      CollectOne(root, files, keys, WalkedFiles(fs, root), k);
    }
  }

  lemma WalkDirDone(fs: FileSystem, root: Path, keys: seq<Path>, walked: set<Path>, dir: Path, seen: set<Path>)
    requires WalkedSoFar(fs, root, keys, walked, seen)
    requires forall k :: k in fs && k != [] && Parent(k) == dir && fs[k].File? ==> k in seen
    requires forall k :: k in seen ==> k != [] && Parent(k) == dir
    ensures WalkedSoFar(fs, root, keys, walked + {dir}, {})
  {
  }

  /** Once every directory at or below the root is walked, sorting the collected list gives the listing. */
  lemma WalkComplete(fs: FileSystem, root: Path, files: seq<string>, keys: seq<Path>, walked: set<Path>)
    requires root in fs
    requires Collected(root, files, keys, WalkedFiles(fs, root))
    requires WalkedSoFar(fs, root, keys, walked, {})
    requires forall d :: d in fs && root <= d && fs[d].Dir? ==> d in walked
    ensures Listed(Sort(files), fs) == WalkListing(fs, root)
  {
    var pool := WalkedFiles(fs, root);
    forall k | k in pool ensures k in keys && root < k {
      assert IsWalkedFile(fs, root, k);
      assert Parent(k) in walked;
    }
    CollectedAll(root, files, keys, pool);
    SortDistinct(files, RelativeStrings(root, pool));
  }

  /**
   * One step of os.walk: the regular files directly inside `dir`, in any
   * order, each kept as a path relative to the root unless its name is hidden.
   */
  method CollectDirectory(fs: FileSystem, root: Path, dir: Path, files: seq<string>,
                          ghost keys: seq<Path>, ghost walked: set<Path>)
    returns (files': seq<string>, ghost keys': seq<Path>)
    requires dir in fs && root <= dir && fs[dir].Dir? && dir !in walked
    requires Collected(root, files, keys, WalkedFiles(fs, root))
    requires WalkedSoFar(fs, root, keys, walked, {})
    ensures files <= files'
    ensures Collected(root, files', keys', WalkedFiles(fs, root))
    ensures WalkedSoFar(fs, root, keys', walked + {dir}, {})
  {
    files', keys' := files, keys;
    var entries := set k | k in fs && k != [] && Parent(k) == dir && fs[k].File?;
    ghost var seen: set<Path> := {};
    while entries != {}
      invariant forall k :: k in entries ==> k in fs && k != [] && Parent(k) == dir && fs[k].File? && k !in seen
      invariant forall k :: k in fs && k != [] && Parent(k) == dir && fs[k].File? ==> k in entries || k in seen
      invariant forall k :: k in seen ==> k != [] && Parent(k) == dir
      invariant files <= files'
      invariant Collected(root, files', keys', WalkedFiles(fs, root))
      invariant WalkedSoFar(fs, root, keys', walked, seen)
      decreases entries
    {
      var k :| k in entries;
      var filename := k[|k| - 1];
      WalkStep(fs, root, files', keys', walked, seen, dir, k);
      if !IsHidden(filename) {
        var full := dir + [filename];
        assert full == k;
        files' := files' + [RelativeString(root, full)];
        keys' := keys' + [k];
      }
      entries := entries - {k};
      seen := seen + {k};
    }
    WalkDirDone(fs, root, keys', walked, dir, seen);
  }

  /**
   * `list_memory_files()`: os.walk visits every directory at or below the
   * root, and each non-hidden file name found there is kept as a path
   * relative to the root; the list is sorted at the end.
   */
  method ListMemoryFiles(fs: FileSystem, root: Path) returns (listing: Listing)
    ensures listing == WalkListing(fs, root)
  {
    if root !in fs {
      var made := MakeDir(fs, root);
      listing := if made.Made? then Listed([], made.fs) else ListRaised(made.error);
      return;
    }
    var files: seq<string> := [];
    ghost var keys: seq<Path> := [];
    var pending := set d | d in fs && root <= d && fs[d].Dir?;
    ghost var walked: set<Path> := {};
    while pending != {}
      invariant forall d :: d in pending ==> d in fs && root <= d && fs[d].Dir?
      invariant forall d :: d in fs && root <= d && fs[d].Dir? ==> d in pending || d in walked
      invariant pending !! walked
      invariant Collected(root, files, keys, WalkedFiles(fs, root))
      invariant WalkedSoFar(fs, root, keys, walked, {})
      decreases pending
    {
      var dir :| dir in pending;
      files, keys := CollectDirectory(fs, root, dir, files, keys, walked);
      pending := pending - {dir};
      walked := walked + {dir};
    }
    WalkComplete(fs, root, files, keys, walked);
    listing := Listed(Sort(files), fs);
  }

  /** A missing root is created, and nothing is listed; when it cannot be created the error escapes. */
  lemma MissingRootIsCreated(fs: FileSystem, root: Path)
    requires root !in fs
    ensures root != []
    ensures var l := WalkListing(fs, root);
      && (l.Listed? <==> Parent(root) in fs && fs[Parent(root)].Dir?)
      && (l.Listed? ==> l.files == [] && l.after.Keys == fs.Keys + {root} && l.after[root] == Dir)
  {
  }

  /** The files os.walk reports are exactly the visible regular files strictly below the root. */
  lemma WalkedFilesAreVisibleFiles(fs: FileSystem, root: Path, k: Path)
    requires k in fs && root < k
    ensures k in WalkedFiles(fs, root) <==> fs[k].File? && !IsHidden(k[|k| - 1])
  {
    assert root <= Parent(k);
    AncestorIsDir(fs, Parent(k), k);
  }

  /** With the root present, a visible regular file below it is listed under its relative path, and nothing else below it is. */
  lemma ListingNamesVisibleFile(fs: FileSystem, root: Path, k: Path)
    requires root in fs && k in fs && root < k
    ensures WalkListing(fs, root).Listed? && WalkListing(fs, root).after == fs
    ensures RelativeString(root, k) in WalkListing(fs, root).files <==> fs[k].File? && !IsHidden(k[|k| - 1])
  {
    var pool := WalkedFiles(fs, root);
    WalkedFilesAreVisibleFiles(fs, root, k);
    if RelativeString(root, k) in WalkListing(fs, root).files {
      var k' :| k' in pool && root < k' && RelativeString(root, k') == RelativeString(root, k);
      RelativeStringInjective(root, k, k');
    }
  }

  /** With the root present, each listed path names a visible regular file strictly below the root. */
  lemma ListedEntryIsVisibleFile(fs: FileSystem, root: Path, i: nat)
    requires root in fs && i < |WalkListing(fs, root).files|
    ensures var k := Locate(root, WalkListing(fs, root).files[i]);
      root < k && k in fs && fs[k].File? && !IsHidden(k[|k| - 1])
  {
    var pool := WalkedFiles(fs, root);
    var files := WalkListing(fs, root).files;
    assert files[i] in RelativeStrings(root, pool);
    var k :| k in pool && root < k && files[i] == RelativeString(root, k);
    RelativeStringLocates(root, k);
  }

  /** A listed path is relative and made of names only: it holds no ".." piece. */
  lemma ListedEntryHasNoParent(fs: FileSystem, root: Path, i: nat)
    requires root in fs && i < |WalkListing(fs, root).files|
    ensures !Parse(WalkListing(fs, root).files[i]).absolute
    ensures ".." !in Parse(WalkListing(fs, root).files[i]).parts
  {
    var files := WalkListing(fs, root).files;
    assert files[i] in RelativeStrings(root, WalkedFiles(fs, root));
    var k :| k in WalkedFiles(fs, root) && root < k && files[i] == RelativeString(root, k);
    RelativeStringLocates(root, k);
  }

  /**
   * With the root present, the listing is strictly sorted, and names each
   * visible regular file below the root, and nothing else, exactly once.
   */
  lemma ListingIsVisibleFiles(fs: FileSystem, root: Path)
    requires root in fs
    ensures WalkListing(fs, root).Listed? && WalkListing(fs, root).after == fs
    ensures StrictlySorted(WalkListing(fs, root).files)
    ensures forall k :: k in fs && root < k ==>
      (RelativeString(root, k) in WalkListing(fs, root).files <==> fs[k].File? && !IsHidden(k[|k| - 1]))
    ensures forall i :: 0 <= i < |WalkListing(fs, root).files| ==>
      var k := Locate(root, WalkListing(fs, root).files[i]);
      root < k && k in fs && fs[k].File? && !IsHidden(k[|k| - 1])
  {
    forall k | k in fs && root < k
      ensures RelativeString(root, k) in WalkListing(fs, root).files <==> fs[k].File? && !IsHidden(k[|k| - 1])
    {
      ListingNamesVisibleFile(fs, root, k);
    }
    forall i | 0 <= i < |WalkListing(fs, root).files|
      ensures var k := Locate(root, WalkListing(fs, root).files[i]); root < k && k in fs && fs[k].File? && !IsHidden(k[|k| - 1])
    {
      ListedEntryIsVisibleFile(fs, root, i);
    }
  }

  /** With the root present, nothing is listed exactly when no visible regular file lies below the root. */
  lemma EmptyListingIffNoVisibleFile(fs: FileSystem, root: Path)
    requires root in fs
    ensures WalkListing(fs, root) == Listed(WalkListing(fs, root).files, fs)
    ensures WalkListing(fs, root).files == [] <==>
      forall k :: k in fs && root < k ==> !(fs[k].File? && !IsHidden(k[|k| - 1]))
  {
    var files := WalkListing(fs, root).files;
    if files != [] {
      ListedEntryIsVisibleFile(fs, root, 0);
    } else {
      forall k | k in fs && root < k ensures !(fs[k].File? && !IsHidden(k[|k| - 1])) {
        ListingNamesVisibleFile(fs, root, k);
      }
    }
  }

  /** Every listed path, handed back to `read_memory_file`, passes the sandbox, existence and file checks. */
  lemma ListedPathsAreReadable(fs: FileSystem, root: Path, utf8: Codec, i: nat)
    requires root in fs
    requires i < |WalkListing(fs, root).files|
    ensures var p := WalkListing(fs, root).files[i];
      var k := Locate(root, p);
      && root < k && k in fs && fs[k].File?
      && ReadMemoryFile(fs, root, p, utf8) == match utf8(fs[k].bytes)
           case Text(t) => Read(TranslateNewlines(t))
           case Invalid(s, e, why) => Failed(BadEncoding(fs[k].bytes, s, e, why))
  {
    ListedEntryIsVisibleFile(fs, root, i);
    ListedEntryHasNoParent(fs, root, i);
    ExistsWithoutParent(fs, root, WalkListing(fs, root).files[i]);
  }
}
