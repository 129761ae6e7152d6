/** Laws of the folder tree: how each operation changes path resolution, and where the invariant would be lost. */
module TreeLaws {
  import opened Forest
  import opened Buckets
  import opened FileSys

  /** After creating the folder `path` it resolves to the new node, and every other path resolves as before. */
  lemma CreationResolves(home: NodeId, f: Forest, path: seq<string>, node: NodeId, q: seq<string>)
    requires path != [] && Resolve(home, f, Parent(path)).Some?
    requires Last(path) !in HeadNames(Resolve(home, f, Parent(path)).value.kids)
    ensures ResolveId(home, Insert(f, path, node), q) == if q == path then Some(node) else ResolveId(home, f, q)
  {
    var p := Parent(path);
    var up := Resolve(home, f, p).value;
    var g := Append(up.kids, Leaf(node, Last(path)));
    ResolveKids(home, NodeId(""), f, p);
    if p <= q {
      var tail := q[|p|..];
      assert q == p + tail && path == p + [Last(path)];
      SetKidsBelow(home, f, p, g, q);
      ResolveAppendLeaf(up.id, up.kids, node, Last(path), tail);
      assert tail == [Last(path)] ==> q == path;
    } else {
      SetKidsOtherPaths(home, f, p, g, q);
      assert path[..|p|] == p;
    }
  }

  /** After deleting the folder `path` nothing resolves at or below it, and every other path resolves as before. */
  lemma DeletionResolves(home: NodeId, f: Forest, path: seq<string>, q: seq<string>)
    requires path != [] && DistinctNames(f) && Resolve(home, f, path).Some?
    ensures ResolveId(home, Drop(f, path), q) == if path <= q then None else ResolveId(home, f, q)
  {
    var p := Parent(path);
    assert path == p + [Last(path)];
    ResolveConcat(home, f, p, [Last(path)]);
    var up := Resolve(home, f, p).value;
    var g := RemoveName(up.kids, Last(path));
    ResolveKids(home, NodeId(""), f, p);
    ResolveSpot(home, f, p);
    if p <= q {
      var tail := q[|p|..];
      assert q == p + tail;
      SetKidsBelow(home, f, p, g, q);
      ResolveRemoveName(up.id, up.kids, Last(path), tail);
      PrefixByTail(p, Last(path), tail);
    } else {
      SetKidsOtherPaths(home, f, p, g, q);
    }
  }

  lemma PrefixByTail(p: seq<string>, x: string, tail: seq<string>)
    ensures p + [x] <= p + tail <==> tail != [] && tail[0] == x
  {
    assert (p + [x])[|p|] == x;
    assert tail != [] ==> (p + tail)[|p|] == tail[0];
  }

  /** Creating a folder and deleting it again is the identity on the tree. */
  lemma DeletionUndoesCreation(home: NodeId, f: Forest, path: seq<string>, node: NodeId)
    requires path != [] && Resolve(home, f, Parent(path)).Some?
    requires Last(path) !in HeadNames(Resolve(home, f, Parent(path)).value.kids)
    ensures Drop(Insert(f, path, node), path) == f
  {
    var p := Parent(path);
    var up := Resolve(home, f, p).value;
    var g := Append(up.kids, Leaf(node, Last(path)));
    ResolveKids(home, NodeId(""), f, p);
    SetKidsResolve(home, f, p, g);
    ResolveKids(home, NodeId(""), SetKids(f, p, g), p);
    RemoveAppended(up.kids, node, Last(path));
    SetKidsTwice(f, p, g, up.kids);
    SetKidsSame(home, f, p);
  }

  lemma {:induction false} RemoveAppended(f: Forest, node: NodeId, name: string)
    requires name !in HeadNames(f)
    ensures RemoveName(Append(f, Leaf(node, name)), name) == f
  {
    if f.Cons? {
      RemoveAppended(f.rest, node, name);
    }
  }

  lemma {:induction false} SetKidsTwice(f: Forest, path: seq<string>, g: Forest, h: Forest)
    ensures SetKids(SetKids(f, path, g), path, h) == SetKids(f, path, h)
    decreases f
  {
    if path != [] && f.Cons? {
      SetKidsTwice(f.kids, path[1..], g, h);
      SetKidsTwice(f.rest, path, g, h);
    }
  }

  lemma {:induction false} SetKidsSame(home: NodeId, f: Forest, path: seq<string>)
    requires Resolve(home, f, path).Some?
    ensures SetKids(f, path, Resolve(home, f, path).value.kids) == f
    decreases f
  {
    if path != [] {
      if f.name == path[0] {
        SetKidsSame(f.id, f.kids, path[1..]);
      } else {
        SetKidsSame(home, f.rest, path);
      }
    }
  }

  // ----- Where the invariant would be lost -----

  /** The empty hierarchy resolves to home, and unlinking home strips the parent entry off its own list. */
  lemma HomeMustNotBeDeleted(b: Buckets, home: NodeId, f: Forest)
    requires IsTree(b, home, f)
    ensures !WellFormed(Unlink(b, home), home)
  {
    var b' := Unlink(b, home);
    HeadsAreIds(f);
    assert b.tree[home][1..] == Heads(f);
    WithoutAbsent(Heads(f), home);
    assert b'.tree[home] == Heads(f);
  }
}
