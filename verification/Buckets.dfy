/** The flat key-value buckets that store the folder hierarchy, and the tree they stand for. */
module Buckets {
  import opened Forest

  /** `tree` maps a node to its parent followed by its children; `names` and `sats` sit beside it. */
  datatype Buckets = Buckets(tree: map<NodeId, seq<NodeId>>, names: map<NodeId, string>, sats: map<NodeId, string>)

  const HOME_NAME := "home"

  /** The folders of `f`, all children of `parent`, are stored in the buckets. */
  ghost predicate Rep(b: Buckets, parent: NodeId, f: Forest)
    decreases f
  {
    match f
    case Nil => true
    case Cons(id, name, kids, rest) =>
      && id in b.tree && b.tree[id] == [parent] + Heads(kids)
      && id in b.names && b.names[id] == name
      && Rep(b, id, kids)
      && Rep(b, parent, rest)
  }

  /** What the buckets hold at and below the home node is exactly the forest `f`. */
  ghost predicate IsTree(b: Buckets, home: NodeId, f: Forest) {
    && home in b.tree && b.tree[home] == [home] + Heads(f)
    && home in b.names && b.names[home] == HOME_NAME
    && Rep(b, home, f)
    && Distinct(f) && home !in Ids(f)
    && DistinctNames(f)
  }

  ghost predicate WellFormed(b: Buckets, home: NodeId) {
    exists f :: IsTree(b, home, f)
  }

  /** Two bucket states hold the same tree and name entries for the given nodes. */
  ghost predicate Agree(b: Buckets, b': Buckets, nodes: set<NodeId>) {
    && (forall x :: x in nodes && x in b.tree ==> x in b'.tree && b'.tree[x] == b.tree[x])
    && (forall x :: x in nodes && x in b.names ==> x in b'.names && b'.names[x] == b.names[x])
  }

  lemma {:induction false} RepKeys(b: Buckets, parent: NodeId, f: Forest)
    requires Rep(b, parent, f)
    ensures Ids(f) <= b.tree.Keys && Ids(f) <= b.names.Keys
    decreases f
  {
    if f.Cons? {
      RepKeys(b, f.id, f.kids);
      RepKeys(b, parent, f.rest);
    }
  }

  lemma {:induction false} RepFrame(b: Buckets, b': Buckets, parent: NodeId, f: Forest)
    requires Rep(b, parent, f) && Agree(b, b', Ids(f))
    ensures Rep(b', parent, f)
    decreases f
  {
    if f.Cons? {
      assert f.id in Ids(f);
      RepFrame(b, b', f.id, f.kids);
      RepFrame(b, b', parent, f.rest);
    }
  }

  lemma TreeFrame(b: Buckets, b': Buckets, home: NodeId, f: Forest)
    requires IsTree(b, home, f) && Agree(b, b', Ids(f) + {home})
    ensures IsTree(b', home, f)
  {
    RepFrame(b, b', home, f);
  }

  lemma {:induction false} RepUnique(b: Buckets, parent: NodeId, f: Forest, g: Forest)
    requires Rep(b, parent, f) && Rep(b, parent, g) && Heads(f) == Heads(g)
    ensures f == g
    decreases f
  {
    if f.Cons? && g.Cons? {
      assert Heads(f)[0] == f.id && Heads(g)[0] == g.id;
      assert Heads(f)[1..] == Heads(f.rest) && Heads(g)[1..] == Heads(g.rest);
      assert b.tree[f.id][1..] == Heads(f.kids) && b.tree[g.id][1..] == Heads(g.kids);
      RepUnique(b, f.id, f.kids, g.kids);
      RepUnique(b, parent, f.rest, g.rest);
    }
  }

  /** The buckets determine the tree. */
  lemma TreeUnique(b: Buckets, home: NodeId, f: Forest, g: Forest)
    requires IsTree(b, home, f) && IsTree(b, home, g)
    ensures f == g
  {
    assert b.tree[home][1..] == Heads(f) && b.tree[home][1..] == Heads(g);
    RepUnique(b, home, f, g);
  }

  lemma {:induction false} RepAppend(b: Buckets, parent: NodeId, f: Forest, g: Forest)
    requires Rep(b, parent, f) && Rep(b, parent, g)
    ensures Rep(b, parent, Append(f, g))
  {
    if f.Cons? {
      RepAppend(b, parent, f.rest, g);
    }
  }

  lemma {:induction false} RepRemoveName(b: Buckets, parent: NodeId, f: Forest, name: string)
    requires Rep(b, parent, f)
    ensures Rep(b, parent, RemoveName(f, name))
  {
    if f.Cons? && f.name != name {
      RepRemoveName(b, parent, f.rest, name);
    }
  }

  /** A folder reached by a path is stored with its children listed behind its parent. */
  lemma {:induction false} RepSpot(b: Buckets, parent: NodeId, f: Forest, path: seq<string>)
    requires Rep(b, parent, f) && Resolve(parent, f, path).Some?
    ensures var spot := Resolve(parent, f, path).value;
            && Rep(b, spot.id, spot.kids)
            && (path != [] ==> spot.id in b.tree && |b.tree[spot.id]| > 0 && b.tree[spot.id][1..] == Heads(spot.kids))
    decreases f
  {
    if path != [] {
      if f.name == path[0] {
        assert b.tree[f.id][1..] == Heads(f.kids);
        RepSpot(b, f.id, f.kids, path[1..]);
      } else {
        RepSpot(b, parent, f.rest, path);
      }
    }
  }

  /** The first entry of a folder's list is the folder its parent path resolves to. */
  lemma {:induction false} RepParent(b: Buckets, parent: NodeId, f: Forest, path: seq<string>, name: string)
    requires Rep(b, parent, f) && Resolve(parent, f, path + [name]).Some?
    ensures Resolve(parent, f, path).Some?
    ensures var id := Resolve(parent, f, path + [name]).value.id;
            id in b.tree && |b.tree[id]| > 0 && b.tree[id][0] == Resolve(parent, f, path).value.id
    decreases f
  {
    var full := path + [name];
    if f.name == full[0] {
      if path != [] {
        assert full[1..] == path[1..] + [name];
        RepParent(b, f.id, f.kids, path[1..], name);
      }
    } else {
      RepParent(b, parent, f.rest, path, name);
    }
  }

  /** A folder's entries after its child list has been rewritten: name and parent stay. */
  ghost predicate Relisted(b: Buckets, b': Buckets, id: NodeId, kids: Forest) {
    && (id in b.names ==> id in b'.names && b'.names[id] == b.names[id])
    && (id in b.tree && |b.tree[id]| > 0 ==> id in b'.tree && b'.tree[id] == [b.tree[id][0]] + Heads(kids))
  }

  /** Outside the subtree of one folder nothing has changed; that folder has been relisted. */
  ghost predicate EditedAt(b: Buckets, b': Buckets, nodes: set<NodeId>, spot: Spot, relisted: bool, g: Forest) {
    && Agree(b, b', nodes - Ids(spot.kids) - {spot.id})
    && (relisted ==> Relisted(b, b', spot.id, g))
    && Rep(b', spot.id, g)
  }

  lemma {:induction false} RepSetKids(b: Buckets, b': Buckets, parent: NodeId, f: Forest, path: seq<string>, g: Forest)
    requires Rep(b, parent, f) && Distinct(f) && parent !in Ids(f)
    requires Resolve(parent, f, path).Some?
    requires EditedAt(b, b', Ids(f), Resolve(parent, f, path).value, path != [], g)
    ensures Rep(b', parent, SetKids(f, path, g))
    decreases f
  {
    if path != [] {
      var spot := Resolve(parent, f, path).value;
      if f.name == path[0] {
        ResolveSpot(f.id, f.kids, path[1..]);
        RepFrame(b, b', parent, f.rest);
        RepSetKids(b, b', f.id, f.kids, path[1..], g);
        RepHead(b, b', parent, f, path, spot, g);
      } else {
        ResolveSpot(parent, f.rest, path);
        RepFrame(b, b', f.id, f.kids);
        RepSetKids(b, b', parent, f.rest, path, g);
      }
    }
  }

  /** The folder the path goes through first is stored as it has to be after the edit. */
  lemma RepHead(b: Buckets, b': Buckets, parent: NodeId, f: Forest, path: seq<string>, spot: Spot, g: Forest)
    requires Rep(b, parent, f) && Distinct(f) && path != [] && f.Cons? && f.name == path[0]
    requires Resolve(f.id, f.kids, path[1..]) == Some(spot) && (path[1..] != [] ==> spot.id in Ids(f.kids))
    requires Ids(spot.kids) <= Ids(f.kids) && EditedAt(b, b', Ids(f), spot, true, g)
    ensures f.id in b'.names && b'.names[f.id] == f.name
    ensures f.id in b'.tree && b'.tree[f.id] == [parent] + Heads(SetKids(f.kids, path[1..], g))
  {
    if path[1..] != [] {
      SetKidsResolve(f.id, f.kids, path[1..], g);
      assert f.id in Ids(f) - Ids(spot.kids) - {spot.id};
    }
  }

  /** One update transaction that rewrites a single child list turns the tree into the edited tree. */
  lemma TreeSetKids(b: Buckets, b': Buckets, home: NodeId, f: Forest, path: seq<string>, g: Forest)
    requires IsTree(b, home, f) && Resolve(home, f, path).Some?
    requires var spot := Resolve(home, f, path).value;
             && EditedAt(b, b', Ids(f) + {home}, spot, true, g)
             && Distinct(g) && DistinctNames(g)
             && Ids(g) !! (Ids(f) + {home} - Ids(spot.kids))
    ensures IsTree(b', home, SetKids(f, path, g))
  {
    var spot := Resolve(home, f, path).value;
    ResolveSpot(home, f, path);
    RepSetKids(b, b', home, f, path, g);
    SetKidsIds(home, f, path, g);
    SetKidsNames(home, f, path, g);
    SetKidsResolve(home, f, path, g);
  }

  lemma {:induction false} RepParentOutside(b: Buckets, parent: NodeId, f: Forest, path: seq<string>)
    requires Rep(b, parent, f) && Distinct(f) && parent !in Ids(f)
    requires path != [] && Resolve(parent, f, path).Some?
    ensures var spot := Resolve(parent, f, path).value;
            spot.id in b.tree && |b.tree[spot.id]| > 0 && b.tree[spot.id][0] !in Ids(spot.kids) + {spot.id}
    decreases f
  {
    if f.name == path[0] {
      if path[1..] != [] {
        RepParentOutside(b, f.id, f.kids, path[1..]);
      }
    } else {
      RepParentOutside(b, parent, f.rest, path);
    }
  }

  /** A folder of the tree and everything below it, as the buckets store them. */
  ghost predicate Stored(b: Buckets, spot: Spot) {
    && spot.id in b.tree && |b.tree[spot.id]| > 0
    && b.tree[spot.id][1..] == Heads(spot.kids)
    && b.tree[spot.id][0] !in Ids(spot.kids) && spot.id !in Ids(spot.kids)
    && Rep(b, spot.id, spot.kids)
    && Distinct(spot.kids) && DistinctNames(spot.kids)
  }

  lemma ResolvedIsStored(b: Buckets, home: NodeId, f: Forest, path: seq<string>)
    requires IsTree(b, home, f) && Resolve(home, f, path).Some?
    ensures var spot := Resolve(home, f, path).value;
            && Stored(b, spot) && spot.id in Ids(f) + {home} && Ids(spot.kids) <= Ids(f)
            && (path != [] ==> spot.id in Ids(f))
  {
    ResolveSpot(home, f, path);
    if path == [] {
      assert b.tree[home][1..] == Heads(f);
    } else {
      RepSpot(b, home, f, path);
      RepParentOutside(b, home, f, path);
    }
  }

  /** A folder is listed under the folder its parent path leads to. */
  lemma StoredParent(b: Buckets, home: NodeId, f: Forest, path: seq<string>)
    requires IsTree(b, home, f) && path != [] && Resolve(home, f, path).Some?
    ensures Resolve(home, f, Parent(path)).Some?
    ensures var spot := Resolve(home, f, path).value; var up := Resolve(home, f, Parent(path)).value;
            && Resolve(up.id, up.kids, [Last(path)]) == Some(spot)
            && spot.id in b.tree && |b.tree[spot.id]| > 0 && b.tree[spot.id][0] == up.id
  {
    assert path == Parent(path) + [Last(path)];
    RepParent(b, home, f, Parent(path), Last(path));
    ResolveConcat(home, f, Parent(path), [Last(path)]);
  }

  /** A child list with one new, childless folder behind the others, as stored after the insertion. */
  lemma AddChild(b: Buckets, b': Buckets, up: Spot, node: NodeId, name: string)
    requires Stored(b, up) && Ids(up.kids) <= b.tree.Keys && name !in HeadNames(up.kids)
    requires node !in b.tree && node in b.names && b.names[node] == name && b'.names == b.names
    requires b'.tree == b.tree[node := [up.id]][up.id := b.tree[up.id] + [node]]
    ensures var g := Append(up.kids, Leaf(node, name));
            && b'.tree[up.id] == [b.tree[up.id][0]] + Heads(g)
            && Ids(g) == Ids(up.kids) + {node}
            && Distinct(g) && DistinctNames(g) && Rep(b', up.id, g)
  {
    var leaf := Leaf(node, name);
    AppendFacts(up.kids, leaf);
    assert HeadNames(leaf) == [name] && Heads(leaf) == [node] && Ids(leaf) == {node};
    assert b.tree[up.id] == [b.tree[up.id][0]] + Heads(up.kids);
    RepFrame(b, b', up.id, up.kids);
    assert b'.tree[node] == [up.id] + Heads(leaf.kids);
    assert Rep(b', node, leaf.kids) && Rep(b', up.id, leaf.rest);
    RepAppend(b', up.id, up.kids, leaf);
  }

  /** The transaction that lists a new node under its parent inserts a leaf into the tree. */
  lemma TreeInsert(b: Buckets, b': Buckets, home: NodeId, f: Forest, path: seq<string>, node: NodeId)
    requires IsTree(b, home, f) && path != []
    requires Resolve(home, f, Parent(path)).Some?
    requires var up := Resolve(home, f, Parent(path)).value;
             && Last(path) !in HeadNames(up.kids)
             && node !in b.tree && node in b.names && b.names[node] == Last(path)
             && up.id in b.tree
             && b'.names == b.names
             && b'.tree == b.tree[node := [up.id]][up.id := b.tree[up.id] + [node]]
    ensures IsTree(b', home, Insert(f, path, node))
  {
    var up := Resolve(home, f, Parent(path)).value;
    ResolvedIsStored(b, home, f, Parent(path));
    RepKeys(b, home, f);
    ResolveKids(home, NodeId(""), f, Parent(path));
    AddChild(b, b', up, node, Last(path));
    TreeSetKids(b, b', home, f, Parent(path), Append(up.kids, Leaf(node, Last(path))));
  }

  /** A child list with one folder taken out, as stored. */
  lemma RemoveChild(b: Buckets, up: Spot, name: string)
    requires Stored(b, up) && Resolve(up.id, up.kids, [name]).Some?
    ensures var spot := Resolve(up.id, up.kids, [name]).value; var g := RemoveName(up.kids, name);
            && Without(b.tree[up.id], spot.id) == [b.tree[up.id][0]] + Heads(g)
            && Ids(g) == Ids(up.kids) - {spot.id} - Ids(spot.kids)
            && spot.id in Ids(up.kids) && Ids(spot.kids) <= Ids(up.kids)
            && Distinct(g) && DistinctNames(g) && Rep(b, up.id, g)
  {
    RemoveNameHeads(up.id, up.kids, name);
    RemoveNameIds(up.id, up.kids, name);
    RemoveNameNames(up.kids, name);
    RepRemoveName(b, up.id, up.kids, name);
    assert b.tree[up.id] == [b.tree[up.id][0]] + Heads(up.kids);
  }

  /** The buckets once a child has been taken out of its parent's list. */
  lemma ChildUnlisted(b: Buckets, b': Buckets, up: Spot, name: string, nodes: set<NodeId>)
    requires Stored(b, up) && Resolve(up.id, up.kids, [name]).Some?
    requires var spot := Resolve(up.id, up.kids, [name]).value;
             b'.names == b.names && b'.tree == b.tree[up.id := Without(b.tree[up.id], spot.id)]
    ensures var spot := Resolve(up.id, up.kids, [name]).value; var g := RemoveName(up.kids, name);
            && EditedAt(b, b', nodes, up, true, g)
            && Ids(g) == Ids(up.kids) - {spot.id} - Ids(spot.kids)
            && spot.id in Ids(up.kids) && Ids(spot.kids) <= Ids(up.kids)
            && Distinct(g) && DistinctNames(g)
  {
    RemoveChild(b, up, name);
    RepFrame(b, b', up.id, RemoveName(up.kids, name));
  }

  lemma StillStored(b: Buckets, b': Buckets, spot: Spot, other: NodeId)
    requires Stored(b, spot) && other !in Ids(spot.kids) + {spot.id} && b'.names == b.names
    requires forall x :: x in b.tree && x != other ==> x in b'.tree && b'.tree[x] == b.tree[x]
    ensures Stored(b', spot)
  {
    RepFrame(b, b', spot.id, spot.kids);
  }

  /** The transaction that takes a node out of its parent's list drops its subtree from the tree. */
  lemma TreeDrop(b: Buckets, b': Buckets, home: NodeId, f: Forest, path: seq<string>)
    requires IsTree(b, home, f) && path != [] && Resolve(home, f, path).Some? && Resolve(home, f, Parent(path)).Some?
    requires var spot := Resolve(home, f, path).value; var up := Resolve(home, f, Parent(path)).value;
             && up.id in b.tree
             && b'.names == b.names && b'.tree == b.tree[up.id := Without(b.tree[up.id], spot.id)]
    ensures IsTree(b', home, Drop(f, path))
    ensures var spot := Resolve(home, f, path).value;
            Ids(Drop(f, path)) == Ids(f) - {spot.id} - Ids(spot.kids) && Stored(b', spot)
  {
    var spot, up := Resolve(home, f, path).value, Resolve(home, f, Parent(path)).value;
    var g := RemoveName(up.kids, Last(path));
    ResolvedIsStored(b, home, f, path);
    ResolvedIsStored(b, home, f, Parent(path));
    StoredParent(b, home, f, path);
    ResolveKids(home, NodeId(""), f, Parent(path));
    ChildUnlisted(b, b', up, Last(path), Ids(f) + {home});
    StillStored(b, b', spot, up.id);
    TreeSetKids(b, b', home, f, Parent(path), g);
    SetKidsIds(home, f, Parent(path), g);
  }

  /** `b'`, holding `f'`, is `b`, holding `f`, with exactly the folders missing from `f'` removed. */
  ghost predicate Trimmed(b: Buckets, f: Forest, b': Buckets, f': Forest, home: NodeId) {
    && Ids(f') <= Ids(f)
    && b'.names == b.names - (Ids(f) - Ids(f'))
    && b'.sats == b.sats - (Ids(f) - Ids(f'))
    && b'.tree.Keys == b.tree.Keys - (Ids(f) - Ids(f'))
    && forall x :: x in b'.tree && x !in Ids(f) && x != home ==> b'.tree[x] == b.tree[x]
  }

  lemma TrimmedTwice(b: Buckets, f: Forest, b1: Buckets, f1: Forest, b2: Buckets, f2: Forest, home: NodeId)
    requires Trimmed(b, f, b1, f1, home) && Trimmed(b1, f1, b2, f2, home)
    ensures Trimmed(b, f, b2, f2, home)
  {
    assert Ids(f) - Ids(f2) == (Ids(f) - Ids(f1)) + (Ids(f1) - Ids(f2));
    assert b2.names == (b.names - (Ids(f) - Ids(f1))) - (Ids(f1) - Ids(f2));
    assert b2.sats == (b.sats - (Ids(f) - Ids(f1))) - (Ids(f1) - Ids(f2));
  }

  /** As Trimmed, but the folders in `left`, which are missing from `f'` too, still have their entries. */
  ghost predicate TrimmedBut(b: Buckets, f: Forest, b': Buckets, f': Forest, home: NodeId, left: set<NodeId>) {
    && Ids(f') <= Ids(f) && left <= Ids(f) - Ids(f')
    && b'.names == b.names - (Ids(f) - Ids(f') - left)
    && b'.sats == b.sats - (Ids(f) - Ids(f') - left)
    && b'.tree.Keys == b.tree.Keys - (Ids(f) - Ids(f') - left)
    && forall x :: x in b'.tree && x !in Ids(f) && x != home ==> b'.tree[x] == b.tree[x]
  }

  lemma TrimmedIsTrimmedBut(b: Buckets, f: Forest, b': Buckets, f': Forest, home: NodeId)
    ensures TrimmedBut(b, f, b', f', home, {}) <==> Trimmed(b, f, b', f', home)
  {
    assert Ids(f) - Ids(f') - {} == Ids(f) - Ids(f');
  }

  lemma TrimmedButTwice(b: Buckets, f: Forest, b1: Buckets, f1: Forest, b2: Buckets, f2: Forest, home: NodeId,
                        left: set<NodeId>, more: set<NodeId>)
    requires TrimmedBut(b, f, b1, f1, home, left) && TrimmedBut(b1, f1, b2, f2, home, more)
    ensures TrimmedBut(b, f, b2, f2, home, left + more)
  {
    var gone, then' := Ids(f) - Ids(f1) - left, Ids(f1) - Ids(f2) - more;
    assert Ids(f) - Ids(f2) - (left + more) == gone + then';
    assert b2.names == (b.names - gone) - then' && b2.sats == (b.sats - gone) - then';
  }

  // ----- The invariant read off the flat buckets -----

  ghost predicate NoDuplicates<T(!new)>(s: seq<T>) {
    forall i, j :: 0 <= i < j < |s| ==> s[i] != s[j]
  }

  lemma {:induction false} HeadFacts(b: Buckets, parent: NodeId, f: Forest)
    requires Rep(b, parent, f) && Distinct(f) && DistinctNames(f)
    ensures NoDuplicates(Heads(f))
    ensures forall c :: c in Heads(f) ==>
              && c in Ids(f) && c in b.tree && |b.tree[c]| > 0 && b.tree[c][0] == parent
              && c in b.names && b.names[c] in HeadNames(f)
    ensures forall i, j :: 0 <= i < j < |Heads(f)| ==> b.names[Heads(f)[i]] != b.names[Heads(f)[j]]
  {
    if f.Cons? {
      HeadFacts(b, parent, f.rest);
      assert forall i :: 1 <= i < |Heads(f)| ==> Heads(f)[i] == Heads(f.rest)[i - 1];
    }
  }

  lemma {:induction false} NodeFacts(b: Buckets, parent: NodeId, f: Forest, n: NodeId) returns (kids: Forest)
    requires Rep(b, parent, f) && Distinct(f) && DistinctNames(f) && n in Ids(f)
    ensures n in b.tree && |b.tree[n]| > 0 && b.tree[n][1..] == Heads(kids)
    ensures Rep(b, n, kids) && Distinct(kids) && DistinctNames(kids) && Ids(kids) <= Ids(f)
    decreases f
  {
    if n == f.id {
      kids := f.kids;
      assert b.tree[n][1..] == Heads(kids);
    } else if n in Ids(f.kids) {
      kids := NodeFacts(b, f.id, f.kids, n);
    } else {
      kids := NodeFacts(b, parent, f.rest, n);
    }
  }

  lemma {:induction false} ListedByParent(b: Buckets, parent: NodeId, f: Forest, n: NodeId)
    requires Rep(b, parent, f) && Distinct(f) && parent !in Ids(f) && n in Ids(f)
    ensures n in b.tree && |b.tree[n]| > 0
    ensures var p := b.tree[n][0];
            if p == parent then n in Heads(f) else p in Ids(f) && p in b.tree && |b.tree[p]| > 0 && n in b.tree[p][1..]
    decreases f
  {
    if n == f.id {
    } else if n in Ids(f.kids) {
      ListedByParent(b, f.id, f.kids, n);
      assert b.tree[f.id][1..] == Heads(f.kids);
    } else {
      ListedByParent(b, parent, f.rest, n);
    }
  }

  /** The node reached by following the parent entry `steps` times. */
  function Climb(b: Buckets, n: NodeId, steps: nat): NodeId
    decreases steps
  {
    if steps == 0 then n
    else if n in b.tree && b.tree[n] != [] then Climb(b, b.tree[n][0], steps - 1)
    else n
  }

  function Depth(f: Forest, n: NodeId): nat {
    match f
    case Nil => 0
    case Cons(id, _, kids, rest) =>
      if n == id then 1 else if n in Ids(kids) then 1 + Depth(kids, n) else Depth(rest, n)
  }

  lemma {:induction false} ClimbConcat(b: Buckets, n: NodeId, i: nat, j: nat)
    ensures Climb(b, n, i + j) == Climb(b, Climb(b, n, i), j)
    decreases i
  {
    if i > 0 {
      if n in b.tree && b.tree[n] != [] {
        ClimbConcat(b, b.tree[n][0], i - 1, j);
      }
    }
  }

  lemma {:induction false} ClimbsToParent(b: Buckets, parent: NodeId, f: Forest, n: NodeId)
    requires Rep(b, parent, f) && n in Ids(f)
    ensures 1 <= Depth(f, n) <= Size(f)
    ensures Climb(b, n, Depth(f, n)) == parent
    decreases f
  {
    if n == f.id {
      assert Climb(b, n, 1) == Climb(b, b.tree[n][0], 0);
    } else if n in Ids(f.kids) {
      ClimbsToParent(b, f.id, f.kids, n);
      var d := Depth(f.kids, n);
      ClimbConcat(b, n, d, 1);
      assert Climb(b, f.id, 1) == Climb(b, b.tree[f.id][0], 0);
    } else {
      ClimbsToParent(b, parent, f.rest, n);
    }
  }

  /** The node's listed children point back, have distinct names, and are listed once. */
  ghost predicate GoodChildren(b: Buckets, n: NodeId, below: set<NodeId>) {
    && n in b.tree && |b.tree[n]| > 0
    && NoDuplicates(b.tree[n][1..])
    && (forall c :: c in b.tree[n][1..] ==>
          c in below && c in b.tree && |b.tree[c]| > 0 && b.tree[c][0] == n && c in b.names)
    && (forall i, j :: 1 <= i < j < |b.tree[n]| && b.tree[n][i] in b.names && b.tree[n][j] in b.names ==>
          b.names[b.tree[n][i]] != b.names[b.tree[n][j]])
  }

  lemma GoodList(b: Buckets, n: NodeId, kids: Forest, below: set<NodeId>)
    requires n in b.tree && |b.tree[n]| > 0 && b.tree[n][1..] == Heads(kids)
    requires Rep(b, n, kids) && Distinct(kids) && DistinctNames(kids) && Ids(kids) <= below
    ensures GoodChildren(b, n, below)
  {
    HeadFacts(b, n, kids);
    assert forall i :: 1 <= i < |b.tree[n]| ==> b.tree[n][i] == Heads(kids)[i - 1];
  }

  /** Reachable buckets are a finite rooted tree: home is its own parent; listed children are keys that point back,
      are named, and have names differing from their siblings'; every folder is in its parent's list (so in exactly
      one list, once), and climbing parents from it ends at home without meeting itself. */
  lemma BucketsFormATree(b: Buckets, home: NodeId, f: Forest)
    requires IsTree(b, home, f)
    ensures home in b.tree && |b.tree[home]| > 0 && b.tree[home][0] == home
    ensures forall n :: n in Ids(f) + {home} ==> GoodChildren(b, n, Ids(f))
    ensures forall n :: n in Ids(f) ==>
              && n in b.tree && |b.tree[n]| > 0
              && b.tree[n][0] in Ids(f) + {home} && b.tree[n][0] in b.tree && |b.tree[b.tree[n][0]]| > 0
              && n in b.tree[b.tree[n][0]][1..]
              && Climb(b, n, Depth(f, n)) == home && 1 <= Depth(f, n) <= Size(f)
  {
    assert b.tree[home][1..] == Heads(f);
    forall n | n in Ids(f) + {home}
      ensures GoodChildren(b, n, Ids(f))
    {
      if n == home {
        GoodList(b, home, f, Ids(f));
      } else {
        var kids := NodeFacts(b, home, f, n);
        GoodList(b, n, kids, Ids(f));
      }
    }
    forall n | n in Ids(f)
      ensures n in b.tree && |b.tree[n]| > 0
      ensures b.tree[n][0] in Ids(f) + {home} && b.tree[n][0] in b.tree && |b.tree[b.tree[n][0]]| > 0
      ensures n in b.tree[b.tree[n][0]][1..]
      ensures Climb(b, n, Depth(f, n)) == home && 1 <= Depth(f, n) <= Size(f)
    {
      ListedByParent(b, home, f, n);
      ClimbsToParent(b, home, f, n);
    }
  }
}
