/** The namespace as a tree: what creating, removing and renaming keep of it. */
module Namespaces {
  import opened Geometry
  import opened Resolution

  const DOT: seq<byte> := [46]
  const DOTDOT: seq<byte> := [46, 46]

  predicate Special(name: seq<byte>) {
    name == DOT || name == DOTDOT
  }

  /** Components that name entries other than `.` and `..`. */
  predicate Plain(cs: seq<seq<byte>>) {
    forall i :: 0 <= i < |cs| ==> !Special(cs[i])
  }

  /** Directory d has an entry under the name, other than `.` and `..`. */
  predicate Entry(tree: Tree, d: int, name: seq<byte>) {
    d in tree && name in tree[d] && !Special(name)
  }

  /** Directories lie further from the root than the directories that name them. */
  ghost predicate Ranked(tree: Tree, rank: map<int, nat>) {
    && (forall d :: d in tree ==> d in rank)
    && forall d, a :: Entry(tree, d, a) && tree[d][a] in tree ==> rank[d] < rank[tree[d][a]]
  }

  /** Inode x is named by some entry. */
  ghost predicate HasName(tree: Tree, x: int) {
    exists d, a :: Entry(tree, d, a) && tree[d][a] == x
  }

  /** The root is a directory, directories are in use, and each has `.`, which names itself, and `..`. */
  ghost predicate Grounded(tree: Tree, used: set<int>, root: int) {
    && root in tree && tree.Keys <= used && (forall x :: x in used ==> x >= 0)
    && (forall d :: d in tree ==> DOT in tree[d] && tree[d][DOT] == d && DOTDOT in tree[d])
  }

  ghost predicate NamesUsed(tree: Tree, used: set<int>, root: int) {
    forall d, a :: Entry(tree, d, a) ==> tree[d][a] in used && tree[d][a] != root
  }

  ghost predicate NamedOnce(tree: Tree) {
    forall d, a, e, b :: Entry(tree, d, a) && Entry(tree, e, b) && tree[d][a] == tree[e][b] ==> d == e && a == b
  }

  ghost predicate AllNamed(tree: Tree, used: set<int>, root: int) {
    forall x :: x in used && x != root ==> HasName(tree, x)
  }

  /**
   * A tree: every entry other than `.` and `..` names an inode in use, every inode in use but the root is named
   * exactly once, and there are no cycles.
   */
  ghost predicate TreeShape(tree: Tree, used: set<int>, root: int) {
    && Grounded(tree, used, root) && NamesUsed(tree, used, root)
    && NamedOnce(tree) && AllNamed(tree, used, root)
    && exists rank :: Ranked(tree, rank)
  }

  // ----- paths in a tree -----

  lemma StepIs(tree: Tree, used: set<int>, root: int, d: int, a: seq<byte>)
    requires TreeShape(tree, used, root) && !Special(a)
    ensures Step(tree, d, a) != -1 <==> Entry(tree, d, a)
    ensures Entry(tree, d, a) ==> Step(tree, d, a) == tree[d][a] && tree[d][a] in used && tree[d][a] != root
  {
  }

  lemma OneEntry(tree: Tree, used: set<int>, root: int, d: int, a: seq<byte>, e: int, b: seq<byte>)
    requires TreeShape(tree, used, root) && Entry(tree, d, a) && Entry(tree, e, b) && tree[d][a] == tree[e][b]
    ensures d == e && a == b
  {
  }

  lemma PlainPrefix(cs: seq<seq<byte>>)
    requires Plain(cs) && cs != []
    ensures Plain(cs[..|cs| - 1]) && Plain(cs[1..]) && !Special(cs[|cs| - 1]) && !Special(cs[0])
  {
  }

  /** No inode has two paths. */
  lemma {:induction false} OnePath(tree: Tree, used: set<int>, root: int, a: seq<seq<byte>>, b: seq<seq<byte>>)
    requires TreeShape(tree, used, root) && Plain(a) && Plain(b)
    requires Walk(tree, root, a) == Walk(tree, root, b) != -1
    ensures a == b
    decreases |a|
  {
    hide TreeShape;
    RootIsNatural(tree, used, root);
    if a != [] {
      PathEnds(tree, used, root, a);
    }
    if b != [] {
      PathEnds(tree, used, root, b);
    }
    if a != [] && b != [] {
      var m, n := |a| - 1, |b| - 1;
      OneEntry(tree, used, root, Walk(tree, root, a[..m]), a[m], Walk(tree, root, b[..n]), b[n]);
      OnePath(tree, used, root, a[..m], b[..n]);
      assert a == a[..m] + [a[m]] && b == b[..n] + [b[n]];
    }
  }

  lemma RootIsNatural(tree: Tree, used: set<int>, root: int)
    requires TreeShape(tree, used, root)
    ensures root in tree && root in used && root >= 0
  {
  }

  /** A path that resolves ends in an entry of the directory that its parent resolves to. */
  lemma PathEnds(tree: Tree, used: set<int>, root: int, cs: seq<seq<byte>>)
    requires TreeShape(tree, used, root) && Plain(cs) && cs != [] && Walk(tree, root, cs) != -1
    ensures var n := |cs| - 1;
      var d := Walk(tree, root, cs[..n]);
      d != -1 && Entry(tree, d, cs[n]) && tree[d][cs[n]] == Walk(tree, root, cs) && Walk(tree, root, cs) != root
    ensures Plain(cs[..|cs| - 1])
  {
    RootIsNatural(tree, used, root);
    WalkLast(tree, root, cs);
    PlainPrefix(cs);
    StepIs(tree, used, root, Walk(tree, root, cs[..|cs| - 1]), cs[|cs| - 1]);
  }

  lemma SomeName(tree: Tree, used: set<int>, root: int, x: int) returns (d: int, a: seq<byte>)
    requires TreeShape(tree, used, root) && x in used && x != root
    ensures Entry(tree, d, a) && tree[d][a] == x
  {
    assert HasName(tree, x);
    d, a :| Entry(tree, d, a) && tree[d][a] == x;
  }

  lemma WalkSnoc(tree: Tree, from: int, cs: seq<seq<byte>>, a: seq<byte>)
    requires from != -1 && Walk(tree, from, cs) != -1
    ensures Walk(tree, from, cs + [a]) == Step(tree, Walk(tree, from, cs), a)
  {
    assert (cs + [a])[..|cs + [a]| - 1] == cs;
    WalkLast(tree, from, cs + [a]);
  }

  lemma PlainSnoc(cs: seq<seq<byte>>, a: seq<byte>)
    requires Plain(cs) && !Special(a)
    ensures Plain(cs + [a])
  {
  }

  lemma {:induction false} DirectoryPath(tree: Tree, used: set<int>, root: int, rank: map<int, nat>,
                                         x: int) returns (cs: seq<seq<byte>>)
    requires TreeShape(tree, used, root) && Ranked(tree, rank) && x in tree
    ensures Plain(cs) && Walk(tree, root, cs) == x
    decreases if x in rank then rank[x] else 0
  {
    RootIsNatural(tree, used, root);
    if x == root {
      cs := [];
    } else {
      var d, a := SomeName(tree, used, root, x);
      cs := DirectoryPath(tree, used, root, rank, d);
      hide TreeShape, Ranked;
      StepIs(tree, used, root, d, a);
      WalkSnoc(tree, root, cs, a);
      PlainSnoc(cs, a);
      cs := cs + [a];
    }
  }

  /** Every inode in use can be reached from the root. */
  lemma EveryInodeHasAPath(tree: Tree, used: set<int>, root: int, x: int) returns (cs: seq<seq<byte>>)
    requires TreeShape(tree, used, root) && x in used
    ensures Plain(cs) && Walk(tree, root, cs) == x
  {
    RootIsNatural(tree, used, root);
    if x == root {
      cs := [];
    } else {
      var d, a := SomeName(tree, used, root, x);
      var rank :| Ranked(tree, rank);
      cs := DirectoryPath(tree, used, root, rank, d);
      hide TreeShape, Ranked;
      StepIs(tree, used, root, d, a);
      WalkSnoc(tree, root, cs, a);
      PlainSnoc(cs, a);
      cs := cs + [a];
    }
  }

  // ----- adding and removing -----

  function AddedName(tree: Tree, p: int, a: seq<byte>, x: int): Tree
    requires p in tree
  {
    tree[p := tree[p][a := x]]
  }

  function RemovedName(tree: Tree, p: int, a: seq<byte>): Tree
    requires p in tree
  {
    tree[p := tree[p] - {a}]
  }

  /** tree' has the entries of tree and one more, for x under name a in p. */
  ghost predicate OneMore(tree: Tree, p: int, a: seq<byte>, x: int, tree': Tree) {
    && (forall d, b :: Entry(tree', d, b) <==> Entry(tree, d, b) || (d == p && b == a))
    && (forall d, b :: Entry(tree, d, b) ==> tree'[d][b] == tree[d][b])
    && !Entry(tree, p, a) && Entry(tree', p, a) && tree'[p][a] == x
  }

  lemma NamedOnceMore(tree: Tree, used: set<int>, root: int, p: int, a: seq<byte>, x: int, tree': Tree)
    requires NamesUsed(tree, used, root) && NamedOnce(tree) && OneMore(tree, p, a, x, tree') && x !in used
    ensures NamedOnce(tree')
  {
    forall d, b, e, c | Entry(tree', d, b) && Entry(tree', e, c) && tree'[d][b] == tree'[e][c]
      ensures d == e && b == c
    {
      assert Entry(tree, d, b) ==> tree[d][b] in used;
      assert Entry(tree, e, c) ==> tree[e][c] in used;
    }
  }

  lemma AllNamedMore(tree: Tree, used: set<int>, root: int, p: int, a: seq<byte>, x: int, tree': Tree)
    requires AllNamed(tree, used, root) && OneMore(tree, p, a, x, tree')
    ensures AllNamed(tree', used + {x}, root)
  {
    assert HasName(tree', x);
    forall y | y in used && y != root
      ensures HasName(tree', y)
    {
      assert HasName(tree, y);
      var d, b :| Entry(tree, d, b) && tree[d][b] == y;
      assert Entry(tree', d, b) && tree'[d][b] == y;
    }
  }

  lemma NamesUsedMore(tree: Tree, used: set<int>, root: int, p: int, a: seq<byte>, x: int, tree': Tree)
    requires NamesUsed(tree, used, root) && OneMore(tree, p, a, x, tree') && x != root
    ensures NamesUsed(tree', used + {x}, root)
  {
  }

  lemma RankedMore(tree: Tree, p: int, a: seq<byte>, x: int, tree': Tree, rank: map<int, nat>, rank': map<int, nat>)
    requires Ranked(tree, rank) && OneMore(tree, p, a, x, tree') && p in tree && x !in tree
    requires tree'.Keys == tree.Keys || tree'.Keys == tree.Keys + {x}
    requires rank' == rank[x := rank[p] + 1] && forall d, b :: Entry(tree, d, b) ==> tree[d][b] != x
    ensures Ranked(tree', rank')
  {
    forall d, b | Entry(tree', d, b) && tree'[d][b] in tree'
      ensures rank'[d] < rank'[tree'[d][b]]
    {
      if Entry(tree, d, b) {
        assert tree[d][b] in tree;
      }
    }
  }

  lemma AddFileShape(tree: Tree, used: set<int>, root: int, p: int, a: seq<byte>, x: int)
    requires TreeShape(tree, used, root) && p in tree && a !in tree[p] && !Special(a) && x >= 0 && x !in used
    ensures TreeShape(AddedName(tree, p, a, x), used + {x}, root)
  {
    hide OneMore, NamesUsed, NamedOnce, AllNamed, Ranked, Special, Entry;
    var tree' := AddedName(tree, p, a, x);
    NotInUse(tree, used, root, x);
    AddedEntries(tree, p, a, x, map[]);
    assert tree' == AddedName(tree, p, a, x) + map[];
    AddedGrounded(tree, used, root, p, a, x);
    hide AddedName;
    GroundedMore(tree', used, root, x);
    AddedKeys(tree, p, a, x);
    AddShape(tree, used, root, p, a, x, tree');
  }

  lemma AddDirectoryShape(tree: Tree, used: set<int>, root: int, p: int, a: seq<byte>, x: int)
    requires TreeShape(tree, used, root) && p in tree && a !in tree[p] && !Special(a) && x >= 0 && x !in used
    ensures TreeShape(AddedName(tree, p, a, x)[x := map[DOT := x, DOTDOT := p]], used + {x}, root)
  {
    hide OneMore, NamesUsed, NamedOnce, AllNamed, Ranked, Special, Entry, AddedName;
    var tree' := AddedName(tree, p, a, x)[x := map[DOT := x, DOTDOT := p]];
    NotInUse(tree, used, root, x);
    AddedEntries(tree, p, a, x, map[x := map[DOT := x, DOTDOT := p]]);
    assert tree' == AddedName(tree, p, a, x) + map[x := map[DOT := x, DOTDOT := p]];
    AddedGrounded(tree, used, root, p, a, x);
    DirectoryGrounded(AddedName(tree, p, a, x), used, root, x, p);
    AddedKeys(tree, p, a, x);
    AddShape(tree, used, root, p, a, x, tree');
  }

  lemma NotInUse(tree: Tree, used: set<int>, root: int, x: int)
    requires Grounded(tree, used, root) && x !in used
    ensures x !in tree
  {
  }

  lemma GroundedMore(tree: Tree, used: set<int>, root: int, x: int)
    requires Grounded(tree, used, root) && x >= 0
    ensures Grounded(tree, used + {x}, root)
  {
  }

  lemma DirectoryGrounded(tree: Tree, used: set<int>, root: int, x: int, p: int)
    requires Grounded(tree, used, root) && x >= 0 && x !in tree
    ensures Grounded(tree[x := map[DOT := x, DOTDOT := p]], used + {x}, root)
  {
  }

  lemma AddedKeys(tree: Tree, p: int, a: seq<byte>, x: int)
    requires p in tree
    ensures AddedName(tree, p, a, x).Keys == tree.Keys
  {
  }

  lemma AddedGrounded(tree: Tree, used: set<int>, root: int, p: int, a: seq<byte>, x: int)
    requires Grounded(tree, used, root) && p in tree && !Special(a)
    ensures Grounded(AddedName(tree, p, a, x), used, root)
  {
  }

  lemma AddedEntries(tree: Tree, p: int, a: seq<byte>, x: int, more: Tree)
    requires p in tree && a !in tree[p] && !Special(a) && x !in tree
    requires more == map[] || more == map[x := map[DOT := x, DOTDOT := p]]
    ensures OneMore(tree, p, a, x, AddedName(tree, p, a, x) + more)
  {
    var tree' := AddedName(tree, p, a, x) + more;
    forall d, b
      ensures Entry(tree', d, b) <==> Entry(tree, d, b) || (d == p && b == a)
    {
    }
  }

  lemma AddShape(tree: Tree, used: set<int>, root: int, p: int, a: seq<byte>, x: int, tree': Tree)
    requires TreeShape(tree, used, root) && p in tree && x >= 0 && x !in used && OneMore(tree, p, a, x, tree')
    requires Grounded(tree', used + {x}, root) && (tree'.Keys == tree.Keys || tree'.Keys == tree.Keys + {x})
    ensures TreeShape(tree', used + {x}, root)
  {
    var rank :| Ranked(tree, rank);
    NeverNamed(tree, used, root, x);
    hide NamesUsed, NamedOnce, AllNamed, Ranked, OneMore;
    NamedOnceMore(tree, used, root, p, a, x, tree');
    AllNamedMore(tree, used, root, p, a, x, tree');
    NamesUsedMore(tree, used, root, p, a, x, tree');
    RankHas(tree, rank, p);
    RankedMore(tree, p, a, x, tree', rank, rank[x := rank[p] + 1]);
  }

  lemma NeverNamed(tree: Tree, used: set<int>, root: int, x: int)
    requires NamesUsed(tree, used, root) && x !in used
    ensures forall d, b :: Entry(tree, d, b) ==> tree[d][b] != x
  {
  }

  lemma RankHas(tree: Tree, rank: map<int, nat>, d: int)
    requires Ranked(tree, rank) && d in tree
    ensures d in rank
  {
  }

  lemma OnlySpecial(names: Names)
    requires DOT in names && DOTDOT in names && |names| <= 2
    ensures forall a :: a in names ==> Special(a)
  {
    var pair := {DOT, DOTDOT};
    assert DOT != DOTDOT && |pair| == 2;
    assert pair <= names.Keys && |names.Keys| == |names|;
    if a :| a in names && !Special(a) {
      assert pair + {a} <= names.Keys && |pair + {a}| == 3;
      SubsetSize(pair + {a}, names.Keys);
      assert false;
    }
  }

  lemma {:induction false} SubsetSize<T>(a: set<T>, b: set<T>)
    requires a <= b
    ensures |a| <= |b|
  {
    assert b == a + (b - a);
  }

  lemma AllNamedLess(tree: Tree, used: set<int>, root: int, p: int, a: seq<byte>, x: int, tree': Tree)
    requires AllNamed(tree, used, root) && OneMore(tree', p, a, x, tree)
    ensures AllNamed(tree', used - {x}, root)
  {
    forall y | y in used && y != root && y != x
      ensures HasName(tree', y)
    {
      assert HasName(tree, y);
      var d, b :| Entry(tree, d, b) && tree[d][b] == y;
      assert Entry(tree', d, b) && tree'[d][b] == y;
    }
  }

  lemma NamesUsedLess(tree: Tree, used: set<int>, root: int, p: int, a: seq<byte>, x: int, tree': Tree)
    requires NamesUsed(tree, used, root) && NamedOnce(tree) && OneMore(tree', p, a, x, tree)
    ensures NamesUsed(tree', used - {x}, root) && NamedOnce(tree')
  {
    forall d, b | Entry(tree', d, b)
      ensures tree'[d][b] in used - {x} && tree'[d][b] != root
    {
      assert Entry(tree, d, b);
    }
  }

  lemma RankedLess(tree: Tree, p: int, a: seq<byte>, x: int, tree': Tree, rank: map<int, nat>)
    requires Ranked(tree, rank) && tree'.Keys <= tree.Keys && OneMore(tree', p, a, x, tree)
    ensures Ranked(tree', rank)
  {
  }

  lemma RemovedIsLess(tree: Tree, p: int, a: seq<byte>, x: int)
    requires Entry(tree, p, a) && tree[p][a] == x && x != p
    requires x in tree ==> forall b :: b in tree[x] ==> Special(b)
    ensures OneMore(RemovedName(tree, p, a) - {x}, p, a, x, tree)
  {
    var tree' := RemovedName(tree, p, a) - {x};
    forall d, b
      ensures Entry(tree', d, b) <==> Entry(tree, d, b) && !(d == p && b == a)
    {
    }
  }

  lemma RemovedGrounded(tree: Tree, used: set<int>, root: int, p: int, a: seq<byte>, x: int)
    requires Grounded(tree, used, root) && Entry(tree, p, a) && x != root
    ensures Grounded(RemovedName(tree, p, a) - {x}, used - {x}, root)
  {
  }

  lemma NotItsOwnParent(tree: Tree, used: set<int>, root: int, rank: map<int, nat>, p: int, a: seq<byte>)
    requires TreeShape(tree, used, root) && Ranked(tree, rank) && Entry(tree, p, a)
    ensures tree[p][a] != p && tree[p][a] != root
  {
  }

  /** Removing a file, or a directory with no entries but `.` and `..`. */
  lemma RemoveShape(tree: Tree, used: set<int>, root: int, p: int, a: seq<byte>, x: int)
    requires TreeShape(tree, used, root) && Entry(tree, p, a) && tree[p][a] == x
    requires x in tree ==> |tree[x]| <= 2
    ensures TreeShape(RemovedName(tree, p, a) - {x}, used - {x}, root)
  {
    var tree' := RemovedName(tree, p, a) - {x};
    var rank :| Ranked(tree, rank);
    NotItsOwnParent(tree, used, root, rank, p, a);
    if x in tree {
      OnlySpecial(tree[x]);
    }
    hide NamesUsed, NamedOnce, AllNamed, Ranked, OneMore, Special;
    RemovedIsLess(tree, p, a, x);
    RemovedGrounded(tree, used, root, p, a, x);
    hide Grounded, RemovedName;
    AllNamedLess(tree, used, root, p, a, x, tree');
    NamesUsedLess(tree, used, root, p, a, x, tree');
    assert tree'.Keys <= tree.Keys;
    RankedLess(tree, p, a, x, tree', rank);
  }

  // ----- renaming -----

  /** Directory or file y lies in the subtree of x. */
  ghost predicate Inside(tree: Tree, x: int, y: int) {
    exists cs :: Plain(cs) && Walk(tree, x, cs) == y
  }

  /** The entry (fp, fa) moved to (tp, ta): the new one is added first, then the old one removed. */
  function Renamed(tree: Tree, fp: int, fa: seq<byte>, tp: int, ta: seq<byte>): Tree
    requires fp in tree && fa in tree[fp] && tp in tree
  {
    RemovedName(AddedName(tree, tp, ta, tree[fp][fa]), fp, fa)
  }

  lemma InsideItself(tree: Tree, x: int)
    ensures Inside(tree, x, x)
  {
    assert Plain([]) && Walk(tree, x, []) == x;
  }

  lemma InsideNext(tree: Tree, used: set<int>, root: int, x: int, d: int, a: seq<byte>)
    requires TreeShape(tree, used, root) && x >= 0 && Inside(tree, x, d) && Entry(tree, d, a)
    ensures Inside(tree, x, tree[d][a])
  {
    assert d in used;
    var cs :| Plain(cs) && Walk(tree, x, cs) == d;
    StepIs(tree, used, root, d, a);
    hide TreeShape;
    WalkSnoc(tree, x, cs, a);
    PlainSnoc(cs, a);
    assert Plain(cs + [a]) && Walk(tree, x, cs + [a]) == tree[d][a];
  }

  /** What lies inside x is x itself, or its parent lies inside x. */
  lemma InsideParent(tree: Tree, used: set<int>, root: int, x: int, d: int, a: seq<byte>)
    requires TreeShape(tree, used, root) && x >= 0 && Entry(tree, d, a) && Inside(tree, x, tree[d][a])
    requires tree[d][a] != x
    ensures Inside(tree, x, d)
  {
    var y := tree[d][a];
    assert y in used;
    var cs :| Plain(cs) && Walk(tree, x, cs) == y;
    assert cs != [];
    var n := |cs| - 1;
    WalkLast(tree, x, cs);
    PlainPrefix(cs);
    StepIs(tree, used, root, Walk(tree, x, cs[..n]), cs[n]);
    OneEntry(tree, used, root, d, a, Walk(tree, x, cs[..n]), cs[n]);
    assert Plain(cs[..n]) && Walk(tree, x, cs[..n]) == d;
  }

  lemma {:induction false} WalkDeeper(tree: Tree, used: set<int>, root: int, rank: map<int, nat>, x: int,
                                      cs: seq<seq<byte>>)
    requires TreeShape(tree, used, root) && Ranked(tree, rank) && x >= 0 && Plain(cs) && Walk(tree, x, cs) in tree
    ensures x in tree && x in rank && Walk(tree, x, cs) in rank && rank[x] <= rank[Walk(tree, x, cs)]
    decreases |cs|
  {
    if cs != [] {
      PlainPrefix(cs);
      StepIs(tree, used, root, x, cs[0]);
      assert -1 !in used;
      WalkDeeper(tree, used, root, rank, Step(tree, x, cs[0]), cs[1..]);
    }
  }

  /** A parent does not lie inside its child. */
  lemma ParentOutside(tree: Tree, used: set<int>, root: int, d: int, a: seq<byte>)
    requires TreeShape(tree, used, root) && Entry(tree, d, a)
    ensures !Inside(tree, tree[d][a], d)
  {
    var rank :| Ranked(tree, rank);
    var x := tree[d][a];
    assert x in used;
    forall cs | Plain(cs)
      ensures Walk(tree, x, cs) != d
    {
      if Walk(tree, x, cs) == d {
        WalkDeeper(tree, used, root, rank, x, cs);
      }
    }
  }

  /** Where entries are after the move. */
  ghost predicate EntriesMoved(tree: Tree, fp: int, fa: seq<byte>, tp: int, ta: seq<byte>, tree': Tree) {
    && Entry(tree, fp, fa) && !Entry(tree, tp, ta) && Entry(tree', tp, ta) && tree'[tp][ta] == tree[fp][fa]
    && !Entry(tree', fp, fa) && !Special(fa) && !Special(ta)
    && (forall d, b :: Entry(tree, d, b) && !(d == fp && b == fa) ==> Entry(tree', d, b) && tree'[d][b] == tree[d][b])
    && (forall d, b :: Entry(tree', d, b) && !(d == tp && b == ta) ==> Entry(tree, d, b) && !(d == fp && b == fa))
  }

  lemma RenamedEntries(tree: Tree, fp: int, fa: seq<byte>, tp: int, ta: seq<byte>)
    requires Entry(tree, fp, fa) && tp in tree && ta !in tree[tp] && !Special(ta)
    ensures EntriesMoved(tree, fp, fa, tp, ta, Renamed(tree, fp, fa, tp, ta))
    ensures Renamed(tree, fp, fa, tp, ta).Keys == tree.Keys
  {
    var tree' := Renamed(tree, fp, fa, tp, ta);
    forall d, b
      ensures Entry(tree', d, b) <==> (Entry(tree, d, b) && !(d == fp && b == fa)) || (d == tp && b == ta)
    {
    }
  }

  lemma RenamedRank(tree: Tree, used: set<int>, root: int, fp: int, fa: seq<byte>, tp: int, ta: seq<byte>, tree': Tree,
                    rank: map<int, nat>, rank': map<int, nat>)
    requires TreeShape(tree, used, root) && Ranked(tree, rank) && tp in tree && tree'.Keys == tree.Keys
    requires EntriesMoved(tree, fp, fa, tp, ta, tree') && !Inside(tree, tree[fp][fa], tp)
    requires rank' == map d | d in tree :: if Inside(tree, tree[fp][fa], d) then rank[d] + rank[tp] + 1 else rank[d]
    ensures Ranked(tree', rank')
  {
    var x := tree[fp][fa];
    assert x in used && x >= 0;
    forall d, b | Entry(tree', d, b) && tree'[d][b] in tree'
      ensures rank'[d] < rank'[tree'[d][b]]
    {
      var y := tree'[d][b];
      if d == tp && b == ta {
        InsideItself(tree, x);
      } else {
        assert Entry(tree, d, b) && tree[d][b] == y;
        if Inside(tree, x, d) {
          InsideNext(tree, used, root, x, d, b);
        } else if Inside(tree, x, y) {
          if y == x {
            OneEntry(tree, used, root, d, b, fp, fa);
          } else {
            InsideParent(tree, used, root, x, d, b);
          }
          assert false;
        }
      }
    }
  }

  lemma RenamedNamed(tree: Tree, used: set<int>, root: int, fp: int, fa: seq<byte>, tp: int, ta: seq<byte>, tree': Tree)
    requires AllNamed(tree, used, root) && NamesUsed(tree, used, root) && NamedOnce(tree)
    requires EntriesMoved(tree, fp, fa, tp, ta, tree')
    ensures AllNamed(tree', used, root) && NamesUsed(tree', used, root) && NamedOnce(tree')
  {
    var x := tree[fp][fa];
    forall y | y in used && y != root
      ensures HasName(tree', y)
    {
      assert HasName(tree, y);
      var d, b :| Entry(tree, d, b) && tree[d][b] == y;
      if y == x {
        assert Entry(tree', tp, ta) && tree'[tp][ta] == y;
      } else {
        assert Entry(tree', d, b) && tree'[d][b] == y;
      }
    }
    forall d, b, e, c | Entry(tree', d, b) && Entry(tree', e, c) && tree'[d][b] == tree'[e][c]
      ensures d == e && b == c
    {
      assert !(d == tp && b == ta) ==> Entry(tree, d, b) && tree[d][b] == tree'[d][b];
      assert !(e == tp && c == ta) ==> Entry(tree, e, c) && tree[e][c] == tree'[e][c];
    }
  }

  lemma RenamedGrounded(tree: Tree, used: set<int>, root: int, fp: int, fa: seq<byte>, tp: int, ta: seq<byte>)
    requires Grounded(tree, used, root) && Entry(tree, fp, fa) && tp in tree && !Special(ta)
    ensures Grounded(Renamed(tree, fp, fa, tp, ta), used, root)
  {
    var x := tree[fp][fa];
    AddedGrounded(tree, used, root, tp, ta, x);
    LessGrounded(AddedName(tree, tp, ta, x), used, root, fp, fa);
  }

  lemma LessGrounded(tree: Tree, used: set<int>, root: int, p: int, a: seq<byte>)
    requires Grounded(tree, used, root) && p in tree && !Special(a)
    ensures Grounded(RemovedName(tree, p, a), used, root)
  {
  }

  lemma RanksHave(tree: Tree, rank: map<int, nat>)
    requires Ranked(tree, rank)
    ensures forall d :: d in tree ==> d in rank
  {
  }

  /** Moving an entry to a new name, in a directory that does not lie inside what is moved, keeps the tree. */
  lemma RenameShape(tree: Tree, used: set<int>, root: int, fp: int, fa: seq<byte>, tp: int, ta: seq<byte>)
    requires TreeShape(tree, used, root) && Entry(tree, fp, fa)
    requires tp in tree && ta !in tree[tp] && !Special(ta) && !Inside(tree, tree[fp][fa], tp)
    ensures TreeShape(Renamed(tree, fp, fa, tp, ta), used, root)
  {
    hide Renamed, EntriesMoved, NamedOnce, AllNamed, NamesUsed, Inside, Grounded, Special;
    var tree' := Renamed(tree, fp, fa, tp, ta);
    RenamedGrounded(tree, used, root, fp, fa, tp, ta);
    RenamedEntries(tree, fp, fa, tp, ta);
    var rank :| Ranked(tree, rank);
    RanksHave(tree, rank);
    hide Ranked;
    var rank' := map d | d in tree :: if Inside(tree, tree[fp][fa], d) then rank[d] + rank[tp] + 1 else rank[d];
    RenamedNamed(tree, used, root, fp, fa, tp, ta, tree');
    RenamedRank(tree, used, root, fp, fa, tp, ta, tree', rank, rank');
  }

  /** Every path to something outside what is moved still leads there. */
  lemma {:induction false} WalkOutside(tree: Tree, used: set<int>, root: int, fp: int, fa: seq<byte>, tp: int,
                                       ta: seq<byte>, tree': Tree, cs: seq<seq<byte>>)
    requires TreeShape(tree, used, root) && EntriesMoved(tree, fp, fa, tp, ta, tree') && Plain(cs)
    requires Walk(tree, root, cs) != -1 && !Inside(tree, tree[fp][fa], Walk(tree, root, cs))
    ensures Walk(tree', root, cs) == Walk(tree, root, cs)
    decreases |cs|
  {
    RootIsNatural(tree, used, root);
    if cs != [] {
      var n, x := |cs| - 1, tree[fp][fa];
      var d := Walk(tree, root, cs[..n]);
      assert x in used && x >= 0;
      PathEnds(tree, used, root, cs);
      hide TreeShape;
      InsideItself(tree, x);
      if Inside(tree, x, d) {
        InsideNext(tree, used, root, x, d, cs[n]);
      }
      WalkOutside(tree, used, root, fp, fa, tp, ta, tree', cs[..n]);
      WalkLast(tree', root, cs);
      hide Inside;
      assert Entry(tree', d, cs[n]) && tree'[d][cs[n]] == tree[d][cs[n]];
    }
  }

  /** After a rename the target path leads to what the source path led to, and the source path leads nowhere. */
  lemma RenameResolves(tree: Tree, used: set<int>, root: int, froms: seq<seq<byte>>, fa: seq<byte>, tos: seq<seq<byte>>,
                       ta: seq<byte>)
    requires TreeShape(tree, used, root) && Plain(froms) && Plain(tos) && !Special(fa) && !Special(ta)
    requires var fp, tp := Walk(tree, root, froms), Walk(tree, root, tos);
      Entry(tree, fp, fa) && tp in tree && ta !in tree[tp] && !Inside(tree, tree[fp][fa], tp)
    ensures var fp, tp := Walk(tree, root, froms), Walk(tree, root, tos);
      var tree' := Renamed(tree, fp, fa, tp, ta);
      && Walk(tree', root, tos + [ta]) == Walk(tree, root, froms + [fa]) == tree[fp][fa]
      && Walk(tree', root, froms + [fa]) == -1
  {
    var fp, tp := Walk(tree, root, froms), Walk(tree, root, tos);
    var tree' := Renamed(tree, fp, fa, tp, ta);
    RootIsNatural(tree, used, root);
    assert -1 !in used && fp in used && tp in used;
    RenamedEntries(tree, fp, fa, tp, ta);
    ParentOutside(tree, used, root, fp, fa);
    StepIs(tree, used, root, fp, fa);
    hide TreeShape, Inside, Renamed;
    WalkOutside(tree, used, root, fp, fa, tp, ta, tree', froms);
    WalkOutside(tree, used, root, fp, fa, tp, ta, tree', tos);
    WalkSnoc(tree, root, froms, fa);
    WalkSnoc(tree', root, froms, fa);
    WalkSnoc(tree', root, tos, ta);
  }

  lemma {:induction false} WalkConcat(tree: Tree, from: int, a: seq<seq<byte>>, b: seq<seq<byte>>)
    requires from != -1
    ensures Walk(tree, from, a + b) == if Walk(tree, from, a) == -1 then -1 else Walk(tree, Walk(tree, from, a), b)
    decreases |a|
  {
    if a == [] {
      assert a + b == b;
    } else {
      assert (a + b)[0] == a[0] && (a + b)[1..] == a[1..] + b;
      if Step(tree, from, a[0]) != -1 {
        WalkConcat(tree, Step(tree, from, a[0]), a[1..], b);
      }
    }
  }

  /** The target lies inside the source exactly when the source path is a prefix of the target's parent path. */
  lemma InsideIsPrefix(tree: Tree, used: set<int>, root: int, from: seq<seq<byte>>, tos: seq<seq<byte>>)
    requires TreeShape(tree, used, root) && Plain(from) && Plain(tos)
    requires Walk(tree, root, from) != -1 && Walk(tree, root, tos) != -1
    ensures Inside(tree, Walk(tree, root, from), Walk(tree, root, tos)) <==> from <= tos
  {
    var x, y := Walk(tree, root, from), Walk(tree, root, tos);
    RootIsNatural(tree, used, root);
    hide TreeShape;
    if Inside(tree, x, y) {
      var cs :| Plain(cs) && Walk(tree, x, cs) == y;
      WalkConcat(tree, root, from, cs);
      assert Plain(from + cs);
      OnePath(tree, used, root, from + cs, tos);
    }
    if from <= tos {
      var cs := tos[|from|..];
      assert tos == from + cs && Plain(cs);
      WalkConcat(tree, root, from, cs);
    }
  }

  /** Removing something without entries of its own leaves every other path alone. */
  lemma {:induction false} WalkKept(tree: Tree, used: set<int>, root: int, p: int, a: seq<byte>, x: int, tree': Tree,
                                    cs: seq<seq<byte>>)
    requires TreeShape(tree, used, root) && OneMore(tree', p, a, x, tree) && Plain(cs)
    requires forall b :: !Entry(tree, x, b)
    requires Walk(tree, root, cs) != -1 && Walk(tree, root, cs) != x
    ensures Walk(tree', root, cs) == Walk(tree, root, cs)
    decreases |cs|
  {
    RootIsNatural(tree, used, root);
    if cs != [] {
      var n := |cs| - 1;
      PathEnds(tree, used, root, cs);
      hide TreeShape;
      WalkKept(tree, used, root, p, a, x, tree', cs[..n]);
      WalkLast(tree', root, cs);
      var d := Walk(tree, root, cs[..n]);
      assert Entry(tree', d, cs[n]) && tree'[d][cs[n]] == tree[d][cs[n]];
    }
  }

  /** Adding a name leaves every path that leads somewhere alone. */
  lemma {:induction false} WalkMore(tree: Tree, from: int, p: int, a: seq<byte>, x: int, cs: seq<seq<byte>>)
    requires p in tree && a !in tree[p] && Walk(tree, from, cs) != -1
    ensures Walk(AddedName(tree, p, a, x), from, cs) == Walk(tree, from, cs)
    decreases |cs|
  {
    if cs != [] {
      WalkMore(tree, Step(tree, from, cs[0]), p, a, x, cs[1..]);
    }
  }

  /** Inside what is moved nothing changes. */
  lemma {:induction false} WalkInside(tree: Tree, used: set<int>, root: int, fp: int, fa: seq<byte>, tp: int,
                                      ta: seq<byte>, tree': Tree, cs: seq<seq<byte>>)
    requires TreeShape(tree, used, root) && EntriesMoved(tree, fp, fa, tp, ta, tree') && Plain(cs)
    requires Walk(tree, tree[fp][fa], cs) != -1
    ensures Walk(tree', tree[fp][fa], cs) == Walk(tree, tree[fp][fa], cs)
    decreases |cs|
  {
    if cs != [] {
      var n, x := |cs| - 1, tree[fp][fa];
      var d := Walk(tree, x, cs[..n]);
      assert x in used && x >= 0;
      WalkLast(tree, x, cs);
      PlainPrefix(cs);
      StepIs(tree, used, root, d, cs[n]);
      ParentOutside(tree, used, root, fp, fa);
      assert Plain(cs[..n]) && Walk(tree, x, cs[..n]) == d;
      assert Inside(tree, x, d);
      hide TreeShape, Inside;
      WalkInside(tree, used, root, fp, fa, tp, ta, tree', cs[..n]);
      WalkLast(tree', x, cs);
      assert Entry(tree', d, cs[n]) && tree'[d][cs[n]] == tree[d][cs[n]];
    }
  }

  /** Moving an entry into what is moved cuts it off: it holds itself, and neither path leads to it any more. */
  lemma RenameDetaches(tree: Tree, used: set<int>, root: int, froms: seq<seq<byte>>, fa: seq<byte>, tp: int,
                       ta: seq<byte>, more: seq<seq<byte>>)
    requires TreeShape(tree, used, root) && Plain(froms) && !Special(fa) && !Special(ta)
    requires Entry(tree, Walk(tree, root, froms), fa) && tp in tree && ta !in tree[tp]
    requires Inside(tree, tree[Walk(tree, root, froms)][fa], tp)
    ensures var fp := Walk(tree, root, froms);
      var tree' := Renamed(tree, fp, fa, tp, ta);
      && !TreeShape(tree', used, root)
      && Walk(tree', root, froms + [fa]) == -1 && Walk(tree', root, froms + [fa] + more) == -1
  {
    var fp := Walk(tree, root, froms);
    var x, tree' := tree[fp][fa], Renamed(tree, fp, fa, tp, ta);
    RootIsNatural(tree, used, root);
    assert -1 !in used && fp in used;
    RenamedEntries(tree, fp, fa, tp, ta);
    ParentOutside(tree, used, root, fp, fa);
    WalkOutside(tree, used, root, fp, fa, tp, ta, tree', froms);
    hide Renamed;
    WalkSnoc(tree', root, froms, fa);
    WalkConcat(tree', root, froms + [fa], more);
    var cs :| Plain(cs) && Walk(tree, x, cs) == tp;
    WalkInside(tree, used, root, fp, fa, tp, ta, tree', cs);
    assert Inside(tree', x, tp);
    if TreeShape(tree', used, root) {
      ParentOutside(tree', used, root, tp, ta);
    }
  }

  /** A moved directory keeps naming its old parent under `..`, and that parent can be removed once it is empty. */
  lemma OldParentRemoved(tree: Tree, used: set<int>, root: int, fp: int, fa: seq<byte>, tp: int, ta: seq<byte>, q: int,
                         b: seq<byte>)
    requires TreeShape(tree, used, root) && Entry(tree, fp, fa) && tp in tree && ta !in tree[tp] && !Special(ta)
    requires tree[fp][fa] in tree && tree[tree[fp][fa]][DOTDOT] == fp && !Inside(tree, tree[fp][fa], tp)
    requires var tree1 := Renamed(tree, fp, fa, tp, ta); Entry(tree1, q, b) && tree1[q][b] == fp && |tree1[fp]| <= 2
    ensures var x, tree2 := tree[fp][fa], RemovedName(Renamed(tree, fp, fa, tp, ta), q, b) - {fp};
      TreeShape(tree2, used - {fp}, root) && x in tree2 && tree2[x][DOTDOT] == fp
  {
    hide TreeShape, Inside, Renamed, Special;
    var x, tree1 := tree[fp][fa], Renamed(tree, fp, fa, tp, ta);
    ParentOutside(tree, used, root, fp, fa);
    InsideItself(tree, x);
    assert x != fp && x != tp;
    HasDots(tree, used, root, x);
    RenamedElsewhere(tree, fp, fa, tp, ta, x);
    RenameShape(tree, used, root, fp, fa, tp, ta);
    RemoveShape(tree1, used, root, q, b, fp);
    NameRemains(tree1, q, b, fp, x);
  }

  lemma HasDots(tree: Tree, used: set<int>, root: int, d: int)
    requires TreeShape(tree, used, root) && d in tree
    ensures DOT in tree[d] && tree[d][DOT] == d && d in used && DOTDOT in tree[d]
  {
  }

  lemma NameRemains(tree: Tree, q: int, b: seq<byte>, y: int, x: int)
    requires q in tree && b != DOTDOT && x in tree && x != y && DOTDOT in tree[x]
    ensures var tree2 := RemovedName(tree, q, b) - {y};
      x in tree2 && DOTDOT in tree2[x] && tree2[x][DOTDOT] == tree[x][DOTDOT]
  {
  }

  lemma RenamedElsewhere(tree: Tree, fp: int, fa: seq<byte>, tp: int, ta: seq<byte>, x: int)
    requires fp in tree && fa in tree[fp] && tp in tree && x in tree && x != fp && x != tp
    ensures x in Renamed(tree, fp, fa, tp, ta) && Renamed(tree, fp, fa, tp, ta)[x] == tree[x]
    ensures forall q, b :: Entry(Renamed(tree, fp, fa, tp, ta), q, b) ==> b != DOTDOT
  {
  }
}
