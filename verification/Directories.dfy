/** A directory as a finite map from names to inode numbers, kept in packed blocks. */
module Directories {
  import opened Geometry
  import opened BlockMaps
  import opened DirectoryBlocks

  /** The entries of each block of a directory. */
  type Directory = seq<seq<Entry>>

  /** All entries, in the order that scans meet them. */
  function Listing(dir: Directory): seq<Entry> {
    if dir == [] then [] else Listing(dir[..|dir| - 1]) + dir[|dir| - 1]
  }

  predicate Distinct(es: seq<Entry>) {
    forall i, j :: 0 <= i < j < |es| ==> es[i].name != es[j].name
  }

  predicate Named(es: seq<Entry>, name: seq<byte>) {
    exists i :: 0 <= i < |es| && es[i].name == name
  }

  /** The finite map that a list of entries stands for. */
  function Names(es: seq<Entry>): map<seq<byte>, int> {
    if es == [] then map[] else Names(es[..|es| - 1])[es[|es| - 1].name := es[|es| - 1].inum]
  }

  /** Each data block of the directory holds its records. */
  ghost predicate Shown(img: Image, m: BlockMap, dir: Directory) {
    && |dir| == |m.Data()|
    && forall k :: 0 <= k < |dir| ==> InData(m.Data()[k]) && Fits(dir[k]) && img[m.Data()[k]] == DirectoryBlock(dir[k])
  }

  // ----- lists of entries -----

  lemma {:induction false} OnlyNamed(es: seq<Entry>)
    ensures forall x :: x in Names(es) ==> Named(es, x)
  {
    if es != [] {
      OnlyNamed(es[..|es| - 1]);
      forall x | x in Names(es)
        ensures Named(es, x)
      {
        NamedLater(es, x);
      }
    }
  }

  lemma NewName(es: seq<Entry>)
    requires Distinct(es) && es != []
    ensures es[|es| - 1].name !in Names(es[..|es| - 1]) && Distinct(es[..|es| - 1])
  {
    OnlyNamed(es[..|es| - 1]);
  }

  lemma NamesNone(es: seq<Entry>)
    requires es == []
    ensures Names(es) == map[]
  {
  }

  lemma NamesStep(es: seq<Entry>)
    requires es != []
    ensures Names(es) == Names(es[..|es| - 1])[es[|es| - 1].name := es[|es| - 1].inum]
  {
  }

  /** Distinct entries stand for a map of the same size, with each entry's pair and no other. */
  lemma {:induction false} NamesAre(es: seq<Entry>)
    requires Distinct(es)
    ensures forall i :: 0 <= i < |es| ==> es[i].name in Names(es) && Names(es)[es[i].name] == es[i].inum
    ensures forall x :: x in Names(es) ==> Named(es, x)
    ensures |Names(es)| == |es|
  {
    hide Names, Named;
    OnlyNamed(es);
    if es == [] {
      NamesNone(es);
    } else {
      var n := |es| - 1;
      NewName(es);
      NamesAre(es[..n]);
      NamesStep(es);
      forall i | 0 <= i < n
        ensures es[i].name in Names(es) && Names(es)[es[i].name] == es[i].inum
      {
        assert es[..n][i] == es[i];
      }
    }
  }

  lemma NamedLater(es: seq<Entry>, x: seq<byte>)
    requires es != []
    ensures Named(es[..|es| - 1], x) || es[|es| - 1].name == x ==> Named(es, x)
  {
    var n := |es| - 1;
    if es[n].name == x {
      assert Named(es, x);
    } else if Named(es[..n], x) {
      var i :| 0 <= i < n && es[..n][i].name == x;
      assert es[i].name == x;
    }
  }

  lemma NamedIn(es: seq<Entry>, x: seq<byte>)
    requires Distinct(es)
    ensures x in Names(es) <==> Named(es, x)
  {
    NamesAre(es);
  }

  lemma EntryAt(es: seq<Entry>, i: int)
    requires Distinct(es) && 0 <= i < |es|
    ensures es[i].name in Names(es) && Names(es)[es[i].name] == es[i].inum
  {
    NamesAre(es);
  }

  lemma Gap(a: seq<Entry>, e: Entry, b: seq<Entry>)
    ensures var es, was := a + [e] + b, a + b;
      && es[|a|] == e
      && forall i :: 0 <= i < |was| ==> was[i] == es[if i < |a| then i else i + 1]
  {
  }

  lemma InsertedDistinct(a: seq<Entry>, e: Entry, b: seq<Entry>)
    requires Distinct(a + b) && forall i :: 0 <= i < |a + b| ==> (a + b)[i].name != e.name
    ensures Distinct(a + [e] + b)
  {
    Gap(a, e, b);
    var es, was, n := a + [e] + b, a + b, |a|;
    forall i, j | 0 <= i < j < |es|
      ensures es[i].name != es[j].name
    {
      var i', j' := if i < n then i else i - 1, if j < n then j else j - 1;
      assert i != n ==> was[i'] == es[i];
      assert j != n ==> was[j'] == es[j];
    }
  }

  /** An entry with a new name, put anywhere, adds one pair to the map. */
  lemma Inserted(a: seq<Entry>, e: Entry, b: seq<Entry>)
    requires Distinct(a + b) && !Named(a + b, e.name)
    ensures Distinct(a + [e] + b)
    ensures Names(a + [e] + b) == Names(a + b)[e.name := e.inum]
  {
    var es, was, n := a + [e] + b, a + b, |a|;
    assert forall i :: 0 <= i < |was| ==> was[i].name != e.name;
    Gap(a, e, b);
    InsertedDistinct(a, e, b);
    NamesAre(was);
    hide Distinct, Names;
    var names := Names(was)[e.name := e.inum];
    forall i | 0 <= i < |es|
      ensures es[i].name in names && names[es[i].name] == es[i].inum
    {
      assert i != n ==> was[if i < n then i else i - 1] == es[i];
    }
    forall x | x in names
      ensures Named(es, x)
    {
      if x == e.name {
        assert es[n].name == x;
      } else {
        assert Named(was, x);
        var i :| 0 <= i < |was| && was[i].name == x;
        assert es[if i < n then i else i + 1].name == x;
      }
    }
    SameMap(es, names);
  }

  /** Taking an entry out takes one pair out of the map. */
  lemma Deleted(a: seq<Entry>, e: Entry, b: seq<Entry>)
    requires Distinct(a + [e] + b)
    ensures Distinct(a + b) && !Named(a + b, e.name)
    ensures Names(a + b) == Names(a + [e] + b) - {e.name}
  {
    var es, was := a + [e] + b, a + b;
    forall i | 0 <= i < |was|
      ensures was[i] == es[if i < |a| then i else i + 1] && was[i].name != e.name
    {
      assert es[|a|] == e;
    }
    forall i, j | 0 <= i < j < |was|
      ensures was[i].name != was[j].name
    {
      var i', j' := if i < |a| then i else i + 1, if j < |a| then j else j + 1;
      assert es[i'].name != es[j'].name;
    }
    Inserted(a, e, b);
    NamedIn(was, e.name);
  }

  lemma SameMap(es: seq<Entry>, names: map<seq<byte>, int>)
    requires Distinct(es)
    requires forall i :: 0 <= i < |es| ==> es[i].name in names && names[es[i].name] == es[i].inum
    requires forall x :: x in names ==> Named(es, x)
    ensures Names(es) == names
  {
    hide Names, Named, Distinct;
    NamesAre(es);
    forall x
      ensures Named(es, x) ==> x in names && x in Names(es) && names[x] == Names(es)[x]
    {
      SameAt(es, names, Names(es), x);
    }
  }

  lemma SameAt(es: seq<Entry>, a: map<seq<byte>, int>, b: map<seq<byte>, int>, x: seq<byte>)
    requires forall i :: 0 <= i < |es| ==> es[i].name in a && a[es[i].name] == es[i].inum
    requires forall i :: 0 <= i < |es| ==> es[i].name in b && b[es[i].name] == es[i].inum
    ensures Named(es, x) ==> x in a && x in b && a[x] == b[x]
  {
  }

  // ----- blocks of entries -----

  lemma {:induction false} ListingConcat(a: Directory, b: Directory)
    ensures Listing(a + b) == Listing(a) + Listing(b)
    decreases |b|
  {
    if b == [] {
      assert a + b == a;
    } else {
      var n := |b| - 1;
      assert (a + b)[..|a + b| - 1] == a + b[..n] && (a + b)[|a + b| - 1] == b[n];
      ListingConcat(a, b[..n]);
    }
  }

  lemma ListingStep(dir: Directory)
    requires dir != []
    ensures Listing(dir) == Listing(dir[..|dir| - 1]) + dir[|dir| - 1]
  {
  }

  lemma ListingAt(dir: Directory, k: int)
    requires 0 <= k < |dir|
    ensures Listing(dir) == Listing(dir[..k]) + dir[k] + Listing(dir[k + 1..])
  {
    hide Listing;
    var before := dir[..k + 1];
    assert dir == before + dir[k + 1..];
    ListingConcat(before, dir[k + 1..]);
    ListingStep(before);
    assert before[..k] == dir[..k];
  }

  lemma ListingUpdate(dir: Directory, k: int, es: seq<Entry>)
    requires 0 <= k < |dir|
    ensures Listing(dir[k := es]) == Listing(dir[..k]) + es + Listing(dir[k + 1..])
  {
    ListingAt(dir[k := es], k);
    assert dir[k := es][..k] == dir[..k] && dir[k := es][k + 1..] == dir[k + 1..];
  }

  /** Adding an entry with a new name to block k, or in a block of its own, adds a pair to the map. */
  lemma AddedTo(dir: Directory, k: int, e: Entry)
    requires 0 <= k < |dir| && Distinct(Listing(dir)) && e.name !in Names(Listing(dir))
    ensures var dir' := dir[k := dir[k] + [e]];
      && Distinct(Listing(dir')) && |Listing(dir')| == |Listing(dir)| + 1
      && Names(Listing(dir')) == Names(Listing(dir))[e.name := e.inum]
  {
    NamedIn(Listing(dir), e.name);
    ListingAt(dir, k);
    ListingUpdate(dir, k, dir[k] + [e]);
    var a, b := Listing(dir[..k]) + dir[k], Listing(dir[k + 1..]);
    assert Listing(dir[..k]) + (dir[k] + [e]) + b == a + [e] + b;
    Inserted(a, e, b);
  }

  lemma AddedBehind(dir: Directory, e: Entry)
    requires Distinct(Listing(dir)) && e.name !in Names(Listing(dir))
    ensures var dir' := dir + [[e]];
      && Distinct(Listing(dir')) && |Listing(dir')| == |Listing(dir)| + 1
      && Names(Listing(dir')) == Names(Listing(dir))[e.name := e.inum]
  {
    NamedIn(Listing(dir), e.name);
    assert (dir + [[e]])[..|dir|] == dir;
    assert Listing(dir) + [e] == Listing(dir) + [e] + [] && Listing(dir) + [] == Listing(dir);
    Inserted(Listing(dir), e, []);
  }

  /** The entry is behind the records of some block, or in a block of its own at the end. */
  predicate Placed(dir: Directory, e: Entry, dir': Directory) {
    dir' == dir + [[e]] || exists k :: 0 <= k < |dir| && dir' == dir[k := dir[k] + [e]]
  }

  lemma Doubled(a: seq<Entry>, e: Entry, b: seq<Entry>)
    requires Named(a + b, e.name)
    ensures !Distinct(a + [e] + b)
  {
    Gap(a, e, b);
    var i :| 0 <= i < |a + b| && (a + b)[i].name == e.name;
    var j := if i < |a| then i else i + 1;
    assert (a + [e] + b)[j].name == (a + [e] + b)[|a|].name;
  }

  /** The entries still have distinct names just when the new name was absent, and then stand for one pair more. */
  lemma PlacedNames(dir: Directory, e: Entry, dir': Directory)
    requires Placed(dir, e, dir') && Distinct(Listing(dir))
    ensures Distinct(Listing(dir')) <==> e.name !in Names(Listing(dir))
    ensures e.name !in Names(Listing(dir)) ==>
      Names(Listing(dir')) == Names(Listing(dir))[e.name := e.inum] && |Listing(dir')| == |Listing(dir)| + 1
  {
    hide Listing, Names, Distinct, Named;
    NamedIn(Listing(dir), e.name);
    if dir' == dir + [[e]] {
      if Named(Listing(dir), e.name) {
        DoubledBehind(dir, e);
      } else {
        AddedBehind(dir, e);
      }
    } else {
      var k :| 0 <= k < |dir| && dir' == dir[k := dir[k] + [e]];
      if Named(Listing(dir), e.name) {
        DoubledIn(dir, k, e);
      } else {
        AddedTo(dir, k, e);
      }
    }
  }

  lemma DoubledBehind(dir: Directory, e: Entry)
    requires Named(Listing(dir), e.name)
    ensures !Distinct(Listing(dir + [[e]]))
  {
    hide Named, Distinct;
    assert (dir + [[e]])[..|dir|] == dir;
    ListingStep(dir + [[e]]);
    assert Listing(dir) + [e] == Listing(dir) + [e] + [] && Listing(dir) + [] == Listing(dir);
    Doubled(Listing(dir), e, []);
  }

  lemma DoubledIn(dir: Directory, k: int, e: Entry)
    requires 0 <= k < |dir| && Named(Listing(dir), e.name)
    ensures !Distinct(Listing(dir[k := dir[k] + [e]]))
  {
    hide Listing, Named, Distinct;
    ListingAt(dir, k);
    ListingUpdate(dir, k, dir[k] + [e]);
    var a, b := Listing(dir[..k]) + dir[k], Listing(dir[k + 1..]);
    assert Listing(dir[..k]) + (dir[k] + [e]) + b == a + [e] + b;
    Doubled(a, e, b);
  }

  lemma RemovedFrom(dir: Directory, k: int, i: int)
    requires 0 <= k < |dir| && 0 <= i < |dir[k]| && Distinct(Listing(dir))
    ensures var dir' := dir[k := Without(dir[k], i)];
      && Distinct(Listing(dir')) && |Listing(dir')| == |Listing(dir)| - 1
      && dir[k][i].name in Names(Listing(dir))
      && Names(Listing(dir'))  == Names(Listing(dir)) - {dir[k][i].name}
  {
    hide Listing, Names, Distinct;
    ListingAt(dir, k);
    ListingUpdate(dir, k, Without(dir[k], i));
    var es, e := dir[k], dir[k][i];
    var a, b := Listing(dir[..k]) + es[..i], es[i + 1..] + Listing(dir[k + 1..]);
    assert es == es[..i] + [e] + es[i + 1..];
    assert Listing(dir) == a + [e] + b;
    assert Listing(dir[..k]) + Without(es, i) + Listing(dir[k + 1..]) == a + b;
    Deleted(a, e, b);
    assert (a + [e] + b)[|a|] == e;
    EntryAt(Listing(dir), |a|);
  }

  /** A scan that finds the name first in block k finds what the map says. */
  lemma FoundIn(dir: Directory, k: int, i: int)
    requires 0 <= k < |dir| && 0 <= i < |dir[k]| && Distinct(Listing(dir))
    ensures dir[k][i].name in Names(Listing(dir)) && Names(Listing(dir))[dir[k][i].name] == dir[k][i].inum
  {
    ListingAt(dir, k);
    var at := |Listing(dir[..k])| + i;
    assert Listing(dir)[at] == dir[k][i];
    EntryAt(Listing(dir), at);
  }

  /** A scan of all blocks that does not find the name shows that the map does not have it. */
  lemma {:induction false} NotFound(dir: Directory, name: seq<byte>)
    requires forall k, i :: 0 <= k < |dir| && 0 <= i < |dir[k]| ==> dir[k][i].name != name
    ensures !Named(Listing(dir), name)
  {
    if dir != [] {
      var n := |dir| - 1;
      assert forall k :: 0 <= k < n ==> dir[..n][k] == dir[k];
      NotFound(dir[..n], name);
      forall j | 0 <= j < |Listing(dir)|
        ensures Listing(dir)[j].name != name
      {
        if j < |Listing(dir[..n])| {
          assert Listing(dir)[j] == Listing(dir[..n])[j];
        }
      }
    }
  }
}
