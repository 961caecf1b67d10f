/** Splitting a path into its parent and its last name (src/inode.cpp:1001-1054). */
module Paths {
  import opened Geometry

  const SLASH: byte := 47  // '/'

  type Path = seq<byte>

  const ROOT_PATH: Path := [SLASH]

  /** The last slash that is not the path's last character, among the first i characters; -1 if there is none. */
  function LastSlash(path: Path, i: nat): (k: int)
    requires i <= |path|
    ensures -1 <= k < i && (k >= 0 ==> k < |path| - 1)
  {
    if i == 0 then -1
    else if path[i - 1] == SLASH && i - 1 != |path| - 1 then i - 1
    else LastSlash(path, i - 1)
  }

  method GetLastIndexOfParentPath(path: Path) returns (k: int)
    ensures -1 <= k < |path|
    ensures k >= 0 ==> path[k] == SLASH && k < |path| - 1
    ensures forall j :: k < j < |path| - 1 ==> path[j] != SLASH
    ensures k == LastSlash(path, |path|)
  {
    var i := |path| - 1;
    while i >= 0
      invariant -1 <= i < |path|
      invariant forall j :: i < j < |path| - 1 ==> path[j] != SLASH
      invariant LastSlash(path, i + 1) == LastSlash(path, |path|)
    {
      if path[i] == SLASH && i != |path| - 1 {
        return i;
      }
      i := i - 1;
    }
    k := -1;
  }

  function ParentPath(path: Path): Path {
    var k := LastSlash(path, |path|);
    if k <= 0 then ROOT_PATH else path[..k]
  }

  function FileName(path: Path): seq<byte>
    requires path != []
  {
    var k := LastSlash(path, |path|);
    var end := if path[|path| - 1] == SLASH then |path| - 1 else |path|;
    path[k + 1..end]
  }

  method CopyParentPath(path: Path) returns (buffer: Path)
    requires path != []
    ensures buffer == ParentPath(path)
    ensures path != ROOT_PATH ==> buffer == ROOT_PATH || |buffer| < |path|
  {
    var index := GetLastIndexOfParentPath(path);
    if index == -1 {
      return [SLASH];
    }
    if index == 0 {
      return path[..1];
    }
    buffer := path[..index];
  }

  lemma FileNameIs(path: Path, start: int, end: int)
    requires path != [] && start == LastSlash(path, |path|) + 1
    requires end == if path[|path| - 1] == SLASH then |path| - 1 else |path|
    ensures 0 <= start <= end && FileName(path) == path[start..end]
  {
  }

  method CopyFileName(path: Path) returns (buffer: seq<byte>)
    requires path != []
    ensures buffer == FileName(path)
  {
    hide LastSlash, FileName;
    var startIndex := GetLastIndexOfParentPath(path);
    var endIndex := |path|;
    if startIndex == -1 {
      startIndex := 0;
    } else {
      startIndex := startIndex + 1;
    }
    if path[endIndex - 1] == SLASH {
      endIndex := endIndex - 1;
    }
    FileNameIs(path, startIndex, endIndex);
    buffer := path[startIndex..endIndex];
  }

  // ----- paths made of components -----

  /** A non-empty, slash-free C string. */
  predicate Component(c: seq<byte>) {
    c != [] && SLASH !in c && 0 !in c
  }

  predicate Components(cs: seq<seq<byte>>) {
    forall i :: 0 <= i < |cs| ==> Component(cs[i])
  }

  /** The components, a slash before each. */
  function Text(cs: seq<seq<byte>>): Path {
    if cs == [] then [] else Text(cs[..|cs| - 1]) + [SLASH] + cs[|cs| - 1]
  }

  /** The path spells the components from the root, with or without a slash at the end. */
  predicate Spells(path: Path, cs: seq<seq<byte>>) {
    Components(cs) && (path == Text(cs) + [SLASH] || (cs != [] && path == Text(cs)))
  }

  lemma LastSlashIs(path: Path, i: nat, k: int)
    requires i <= |path| && -1 <= k < i
    requires k >= 0 ==> path[k] == SLASH && k < |path| - 1
    requires forall j :: k < j < i && j < |path| - 1 ==> path[j] != SLASH
    ensures LastSlash(path, i) == k
  {
  }

  lemma {:induction false} TextStarts(cs: seq<seq<byte>>)
    requires Components(cs) && cs != []
    ensures Text(cs)[0] == SLASH && |Text(cs)| >= 2 && Text(cs)[|Text(cs)| - 1] != SLASH
  {
    var last := cs[|cs| - 1];
    assert Component(last);
    assert last[|last| - 1] in last;
    if |cs| > 1 {
      TextStarts(cs[..|cs| - 1]);
    }
  }

  lemma LastSlashOf(path: Path, before: Path, last: seq<byte>, tail: Path)
    requires last != [] && SLASH !in last && path == before + [SLASH] + last + tail && (tail == [] || tail == [SLASH])
    ensures LastSlash(path, |path|) == |before|
  {
    var k := |before|;
    assert path[k] == SLASH;
    forall j | k < j < |path| - 1
      ensures path[j] != SLASH
    {
      assert path[j] == last[j - k - 1];
    }
    LastSlashIs(path, |path|, k);
  }

  lemma SplitAtLast(path: Path, before: Path, last: seq<byte>, tail: Path)
    requires last != [] && SLASH !in last && path == before + [SLASH] + last + tail && (tail == [] || tail == [SLASH])
    ensures path != ROOT_PATH && FileName(path) == last
    ensures ParentPath(path) == if before == [] then ROOT_PATH else before
  {
    LastSlashOf(path, before, last, tail);
    hide LastSlash;
    var k := |before|;
    assert path[..k] == before && path[k + 1..k + 1 + |last|] == last;
    assert tail == [] ==> path[|path| - 1] == last[|last| - 1];
    assert tail == [SLASH] ==> path[|path| - 1] == SLASH;
  }

  /**
   * The parent path spells all components but the last; the file name is the last; together they give back the
   * path.
   */
  lemma SplitPath(path: Path, cs: seq<seq<byte>>)
    requires Spells(path, cs) && cs != []
    ensures path != ROOT_PATH
    ensures Spells(ParentPath(path), cs[..|cs| - 1]) && FileName(path) == cs[|cs| - 1]
    ensures var text := (if |cs| == 1 then [] else ParentPath(path)) + [SLASH] + FileName(path);
      path == text || path == text + [SLASH]
  {
    hide FileName, ParentPath;
    var n := |cs| - 1;
    var tail := PathShape(path, cs);
    SplitAtLast(path, Text(cs[..n]), cs[n], tail);
    ParentSpells(cs);
  }

  lemma PathShape(path: Path, cs: seq<seq<byte>>) returns (tail: Path)
    requires Spells(path, cs) && cs != []
    ensures path == Text(cs[..|cs| - 1]) + [SLASH] + cs[|cs| - 1] + tail && (tail == [] || tail == [SLASH])
    ensures Component(cs[|cs| - 1]) && (|cs| > 1 ==> Text(cs[..|cs| - 1]) != [])
  {
    tail := if path == Text(cs) then [] else [SLASH];
    if |cs| > 1 {
      TextStarts(cs[..|cs| - 1]);
    }
  }

  lemma ParentSpells(cs: seq<seq<byte>>)
    requires Components(cs) && cs != []
    ensures var before := Text(cs[..|cs| - 1]);
      Spells(if before == [] then ROOT_PATH else before, cs[..|cs| - 1])
  {
    if |cs| > 1 {
      TextStarts(cs[..|cs| - 1]);
    } else {
      assert cs[..0] == [];
    }
  }
}
