/**
 * POSIX path strings as pathlib sees them (no symbolic links): splitting on
 * a separator, joining with it, parsing a user-supplied path string, and
 * resolving it against a base directory by folding ".." segments.
 */
module Paths {

  /** A piece of a path string that pathlib keeps after splitting on '/'. */
  predicate IsPart(s: string) {
    s != "" && s != "." && '/' !in s
  }

  /** A directory-entry name: what a resolved path is made of. */
  predicate IsName(s: string) {
    IsPart(s) && s != ".."
  }

  type Name = s: string | IsName(s) witness "a"

  /** An absolute, resolved path, as the list of names below the filesystem root. */
  type Path = seq<Name>

  /** `s.split(sep)`: the pieces between separators, empty pieces included. */
  function Split(s: string, sep: char): (pieces: seq<string>)
    ensures |pieces| >= 1
    ensures forall i :: 0 <= i < |pieces| ==> sep !in pieces[i]
  {
    if s == [] then [""]
    else
      var rest := Split(s[1..], sep);
      if s[0] == sep then [""] + rest
      else [[s[0]] + rest[0]] + rest[1..]
  }

  /** `sep.join(pieces)`. */
  function JoinWith(pieces: seq<string>, sep: char): string
  {
    if |pieces| == 0 then ""
    else if |pieces| == 1 then pieces[0]
    else pieces[0] + [sep] + JoinWith(pieces[1..], sep)
  }

  lemma {:induction false} SplitWithoutSeparator(x: string, sep: char)
    requires sep !in x
    ensures Split(x, sep) == [x]
  {
    if x != [] {
      SplitWithoutSeparator(x[1..], sep);
      assert [x[0]] + x[1..] == x;
    }
  }

  lemma {:induction false} SplitAtSeparator(x: string, sep: char, y: string)
    requires sep !in x
    ensures Split(x + [sep] + y, sep) == [x] + Split(y, sep)
  {
    if x == [] {
      assert (x + [sep] + y)[1..] == y;
    } else {
      assert (x + [sep] + y)[1..] == x[1..] + [sep] + y;
      SplitAtSeparator(x[1..], sep, y);
      assert [x[0]] + x[1..] == x;
    }
  }

  /** Splitting what was joined gives back the pieces, as long as no piece contains the separator. */
  lemma {:induction false} SplitJoin(pieces: seq<string>, sep: char)
    requires |pieces| >= 1
    requires forall i :: 0 <= i < |pieces| ==> sep !in pieces[i]
    ensures Split(JoinWith(pieces, sep), sep) == pieces
  {
    if |pieces| == 1 {
      SplitWithoutSeparator(pieces[0], sep);
    } else {
      SplitJoin(pieces[1..], sep);
      SplitAtSeparator(pieces[0], sep, JoinWith(pieces[1..], sep));
      assert [pieces[0]] + pieces[1..] == pieces;
    }
  }

  /** The pieces pathlib keeps: empty pieces (from "//" or a leading '/') and "." are dropped. */
  function KeepParts(pieces: seq<string>): (parts: seq<string>)
    ensures forall i :: 0 <= i < |parts| ==> parts[i] in pieces && parts[i] != "" && parts[i] != "."
    ensures (forall i :: 0 <= i < |pieces| ==> pieces[i] != "" && pieces[i] != ".") ==> parts == pieces
  {
    if pieces == [] then []
    else if pieces[0] == "" || pieces[0] == "." then KeepParts(pieces[1..])
    else [pieces[0]] + KeepParts(pieces[1..])
  }

  /** A path string parsed the way PurePosixPath parses it. */
  datatype PurePath = PurePath(absolute: bool, parts: seq<string>)

  function Parse(s: string): (p: PurePath)
    ensures forall i :: 0 <= i < |p.parts| ==> IsPart(p.parts[i])
  {
    PurePath(|s| > 0 && s[0] == '/', KeepParts(Split(s, '/')))
  }

  /** One segment of resolution: ".." climbs one level (and stays at "/"), a name descends. */
  function Step(base: Path, part: string): Path
    requires IsPart(part)
  {
    if part == ".." then (if base == [] then [] else base[..|base| - 1])
    else base + [part]
  }

  /** The parts of a path folded onto an already-resolved base. */
  function Resolve(base: Path, parts: seq<string>): Path
    requires forall i :: 0 <= i < |parts| ==> IsPart(parts[i])
    decreases |parts|
  {
    if parts == [] then base
    else Resolve(Step(base, parts[0]), parts[1..])
  }

  /**
   * `(root / s).resolve()`: the location a path string names when it is
   * joined to the resolved directory `root`; an absolute string ignores `root`.
   */
  function Locate(root: Path, s: string): Path
  {
    var p := Parse(s);
    Resolve(if p.absolute then [] else root, p.parts)
  }

  /** A relative path made only of names lands exactly below the base. */
  lemma {:induction false} ResolveNames(base: Path, names: seq<Name>)
    ensures Resolve(base, names) == base + names
    decreases |names|
  {
    if names != [] {
      ResolveNames(base + [names[0]], names[1..]);
      assert base + [names[0]] + names[1..] == base + names;
    }
  }

  /** Without ".." a relative path can never leave its base. */
  lemma {:induction false} ResolveStaysBelow(base: Path, parts: seq<string>)
    requires forall i :: 0 <= i < |parts| ==> IsPart(parts[i]) && parts[i] != ".."
    ensures base <= Resolve(base, parts)
    decreases |parts|
  {
    if parts != [] {
      ResolveStaysBelow(base + [parts[0]], parts[1..]);
    }
  }

  /** The relative path string of a location strictly below `root`. */
  function RelativeString(root: Path, k: Path): string
    requires root <= k
  {
    JoinWith(k[|root|..], '/')
  }

  /** A relative path string, joined to its root again, names the location it was made from. */
  lemma RelativeStringLocates(root: Path, k: Path)
    requires root < k
    ensures Parse(RelativeString(root, k)) == PurePath(false, k[|root|..])
    ensures Locate(root, RelativeString(root, k)) == k
  {
    var rel: seq<Name> := k[|root|..];
    var s := JoinWith(rel, '/');
    assert forall i :: 0 <= i < |rel| ==> '/' !in rel[i] && IsName(rel[i]);
    SplitJoin(rel, '/');
    assert KeepParts(Split(s, '/')) == rel;
    if |rel| == 1 {
      assert s == rel[0];
    } else {
      assert s == rel[0] + ['/'] + JoinWith(rel[1..], '/');
    }
    assert s[0] == rel[0][0] && s[0] != '/';
    ResolveNames(root, rel);
    assert root + rel == k;
  }

  /** Distinct locations strictly below `root` have distinct relative path strings. */
  lemma RelativeStringInjective(root: Path, k1: Path, k2: Path)
    requires root < k1 && root < k2
    requires RelativeString(root, k1) == RelativeString(root, k2)
    ensures k1 == k2
  {
    RelativeStringLocates(root, k1);
    RelativeStringLocates(root, k2);
  }

  /** "/" followed by names joined with '/' parses as exactly those names, absolute. */
  lemma ParseAbsoluteNames(names: seq<Name>)
    requires names != []
    ensures Parse("/" + JoinWith(names, '/')) == PurePath(true, names)
  {
    var tail := JoinWith(names, '/');
    assert "/" + tail == "" + ['/'] + tail;
    SplitAtSeparator("", '/', tail);
    assert forall i :: 0 <= i < |names| ==> '/' !in names[i];
    SplitJoin(names, '/');
    assert Split("/" + tail, '/') == [""] + names;
    assert ([""] + names)[1..] == names;
    assert KeepParts(names) == names;
  }

  /** An absolute path made of names locates exactly those names, whatever the base. */
  lemma LocateAbsoluteNames(root: Path, names: seq<Name>)
    requires names != []
    ensures Locate(root, "/" + JoinWith(names, '/')) == names
  {
    ParseAbsoluteNames(names);
    ResolveNames([], names);
    assert [] + names == names;
  }

  /** "name/../f" parses as the three pieces name, ".." and f. */
  lemma ParseParentStep(name: Name, f: Name)
    ensures Parse(name + "/../" + f) == PurePath(false, [name, "..", f])
  {
    var s := name + "/../" + f;
    assert '/' !in name && '/' !in f && '/' !in "..";
    assert s == name + ['/'] + (".." + ['/'] + f);
    SplitAtSeparator(name, '/', ".." + ['/'] + f);
    SplitAtSeparator("..", '/', f);
    SplitWithoutSeparator(f, '/');
    assert Split(s, '/') == [name, "..", f];
  }

  /** Folding "name/../f" onto a base lands on f directly below the base. */
  lemma LocateParentStep(root: Path, name: Name, f: Name)
    ensures Locate(root, name + "/../" + f) == root + [f]
  {
    ParseParentStep(name, f);
    var below := root + [name];
    assert below[..|below| - 1] == root;
    assert [name, "..", f][1..] == ["..", f];
    assert ["..", f][1..] == [f];
    assert Resolve(root, [name, "..", f]) == Resolve(below, ["..", f]);
    assert Resolve(below, ["..", f]) == Resolve(root, [f]);
    assert Resolve(root + [f], []) == root + [f];
  }

  /**
   * A path that climbs out of a non-empty root with ".." and then names
   * something other than the root's own last name lands outside the root.
   */
  lemma ParentEscapes(root: Path, rest: seq<Name>)
    requires root != []
    requires rest == [] || rest[0] != root[|root| - 1]
    ensures IsPart("..") && !(root <= Resolve(root, [".."] + rest))
  {
    assert ([".."] + rest)[1..] == rest;
    ResolveNames(root[..|root| - 1], rest);
    var r := root[..|root| - 1] + rest;
    if rest != [] {
      assert r[|root| - 1] == rest[0];
    }
  }
}
