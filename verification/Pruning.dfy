/** What deleting with upward pruning, and sweeping expired folders, leave of a folder tree. */
module Pruning {
  import opened Forest

  // ----- Plug: editing one folder's children and pruning upward -----

  lemma {:induction false} PlugConcat(here: NodeId, f: Forest, p: seq<string>, q: seq<string>, g: Forest)
    requires Resolve(here, f, p).Some?
    ensures Plug(f, p + q, g) == Plug(f, p, Plug(Resolve(here, f, p).value.kids, q, g))
    decreases f
  {
    if p == [] {
      assert p + q == q;
    } else {
      assert (p + q)[0] == p[0] && (p + q)[1..] == p[1..] + q;
      if f.name == p[0] {
        PlugConcat(f.id, f.kids, p[1..], q, g);
      } else {
        PlugConcat(here, f.rest, p, q, g);
      }
    }
  }

  lemma {:induction false} PlugSame(here: NodeId, f: Forest, p: seq<string>)
    requires Resolve(here, f, p).Some? && (Resolve(here, f, p).value.kids.Cons? || p == [])
    ensures Plug(f, p, Resolve(here, f, p).value.kids) == f
    decreases f
  {
    if p != [] {
      if f.name == p[0] {
        PlugSame(f.id, f.kids, p[1..]);
        if p[1..] != [] {
          assert f.kids.Cons?;
        }
      } else {
        PlugSame(here, f.rest, p);
      }
    }
  }

  lemma {:induction false} PlugSetKids(f: Forest, p: seq<string>, g: Forest, h: Forest)
    ensures Plug(SetKids(f, p, g), p, h) == Plug(f, p, h)
    decreases f
  {
    if p != [] && f.Cons? {
      if f.name == p[0] {
        PlugSetKids(f.kids, p[1..], g, h);
      } else {
        PlugSetKids(f.rest, p, g, h);
      }
    }
  }

  lemma {:induction false} PlugOne(f: Forest, name: string)
    ensures Plug(f, [name], Nil) == RemoveName(f, name)
  {
    if f.Cons? && f.name != name {
      PlugOne(f.rest, name);
    }
  }

  /** Emptying a folder with pruning removes it from its parent with pruning. */
  lemma PlugNil(here: NodeId, f: Forest, p: seq<string>, name: string)
    requires Resolve(here, f, p).Some?
    ensures Plug(f, p + [name], Nil) == Plug(f, p, RemoveName(Resolve(here, f, p).value.kids, name))
  {
    PlugConcat(here, f, p, [name], Nil);
    PlugOne(Resolve(here, f, p).value.kids, name);
  }

  // ----- The expiry sweep -----

  /** A folder's deadline file can be read and holds a non-negative time. */
  predicate Readable(deadlines: map<NodeId, int>, id: NodeId) {
    id in deadlines && deadlines[id] >= 0
  }

  /** The time read when a folder's deadline is looked at. Each folder is looked at once in a round. */
  type Clock = NodeId -> int

  predicate Expired(deadlines: map<NodeId, int>, clock: Clock, id: NodeId) {
    id in deadlines && clock(id) > deadlines[id]
  }

  /** One sweep over sibling folders: an unreadable deadline stops the sweep of its siblings; an expired folder goes;
      a folder whose children have all gone goes with them. */
  function Sweep(f: Forest, deadlines: map<NodeId, int>, clock: Clock): Forest {
    match f
    case Nil => Nil
    case Cons(id, name, kids, rest) =>
      if !Readable(deadlines, id) then f
      else if Expired(deadlines, clock, id) then Sweep(rest, deadlines, clock)
      else if kids.Nil? then Cons(id, name, Nil, Sweep(rest, deadlines, clock))
      else
        var k := Sweep(kids, deadlines, clock);
        if k.Nil? then Sweep(rest, deadlines, clock) else Cons(id, name, k, Sweep(rest, deadlines, clock))
  }

  function LeafIds(f: Forest): set<NodeId> {
    match f
    case Nil => {}
    case Cons(id, _, kids, rest) => (if kids.Nil? then {id} else LeafIds(kids)) + LeafIds(rest)
  }

  /** The folders from the top level down to `n`, inclusive. */
  function Chain(f: Forest, n: NodeId): seq<NodeId> {
    match f
    case Nil => []
    case Cons(id, _, kids, rest) =>
      if n == id then [id] else if n in Ids(kids) then [id] + Chain(kids, n) else Chain(rest, n)
  }

  lemma {:induction false} LeavesAreFolders(f: Forest)
    ensures LeafIds(f) <= Ids(f)
    ensures f.Cons? ==> LeafIds(f) != {}
  {
    if f.Cons? {
      LeavesAreFolders(f.kids);
      LeavesAreFolders(f.rest);
      if f.kids.Nil? {
        assert f.id in LeafIds(f);
      } else {
        var l :| l in LeafIds(f.kids);
        assert l in LeafIds(f);
      }
    }
  }

  lemma {:induction false} ChainInside(f: Forest, n: NodeId)
    ensures forall a :: a in Chain(f, n) ==> a in Ids(f)
    ensures n in Ids(f) ==> n in Chain(f, n)
    ensures n !in Ids(f) ==> Chain(f, n) == []
  {
    if f.Cons? {
      ChainInside(f.kids, n);
      ChainInside(f.rest, n);
    }
  }

  lemma {:induction false} SweepShrinks(f: Forest, deadlines: map<NodeId, int>, clock: Clock)
    ensures Ids(Sweep(f, deadlines, clock)) <= Ids(f)
    ensures CleanNames(f) ==> CleanNames(Sweep(f, deadlines, clock))
    ensures forall n :: n in HeadNames(Sweep(f, deadlines, clock)) ==> n in HeadNames(f)
  {
    if f.Cons? {
      SweepShrinks(f.kids, deadlines, clock);
      SweepShrinks(f.rest, deadlines, clock);
    }
  }

  /** A leaf keeps `n` alive: it is at or below `n`, and no folder from the top level down to it has expired. */
  ghost predicate KeptBy(f: Forest, deadlines: map<NodeId, int>, clock: Clock, n: NodeId, leaf: NodeId) {
    && leaf in LeafIds(f) && n in Chain(f, leaf)
    && forall a :: a in Chain(f, leaf) ==> !Expired(deadlines, clock, a)
  }

  ghost predicate Kept(f: Forest, deadlines: map<NodeId, int>, clock: Clock, n: NodeId) {
    exists leaf :: KeptBy(f, deadlines, clock, n, leaf)
  }

  lemma {:induction false} KeptInRest(f: Forest, deadlines: map<NodeId, int>, clock: Clock, n: NodeId)
    requires f.Cons? && Distinct(f) && n in Ids(f.rest)
    ensures Kept(f, deadlines, clock, n) <==> Kept(f.rest, deadlines, clock, n)
  {
    LeavesAreFolders(f.rest);
    LeavesAreFolders(f.kids);
    if leaf :| KeptBy(f.rest, deadlines, clock, n, leaf) {
      assert Chain(f, leaf) == Chain(f.rest, leaf);
      assert KeptBy(f, deadlines, clock, n, leaf);
    }
    if leaf :| KeptBy(f, deadlines, clock, n, leaf) {
      ChainInside(f.kids, leaf);
      assert Chain(f, leaf) == Chain(f.rest, leaf);
      assert KeptBy(f.rest, deadlines, clock, n, leaf);
    }
  }

  lemma {:induction false} KeptInKids(f: Forest, deadlines: map<NodeId, int>, clock: Clock, n: NodeId)
    requires f.Cons? && Distinct(f) && n in Ids(f.kids)
    ensures Kept(f, deadlines, clock, n) <==> !Expired(deadlines, clock, f.id) && Kept(f.kids, deadlines, clock, n)
  {
    LeavesAreFolders(f.rest);
    LeavesAreFolders(f.kids);
    if leaf :| KeptBy(f, deadlines, clock, n, leaf) {
      ChainInside(f.rest, leaf);
      assert Chain(f, leaf) == [f.id] + Chain(f.kids, leaf);
      assert f.id in Chain(f, leaf);
      assert KeptBy(f.kids, deadlines, clock, n, leaf);
    }
    if !Expired(deadlines, clock, f.id) {
      if leaf :| KeptBy(f.kids, deadlines, clock, n, leaf) {
        assert Chain(f, leaf) == [f.id] + Chain(f.kids, leaf);
        assert KeptBy(f, deadlines, clock, n, leaf);
      }
    }
  }

  lemma {:induction false} KeptHead(f: Forest, deadlines: map<NodeId, int>, clock: Clock)
    requires f.Cons? && Distinct(f)
    ensures Kept(f, deadlines, clock, f.id) <==>
            && !Expired(deadlines, clock, f.id)
            && (f.kids.Nil? || exists m :: m in Ids(f.kids) && Kept(f.kids, deadlines, clock, m))
  {
    LeavesAreFolders(f.rest);
    LeavesAreFolders(f.kids);
    if leaf :| KeptBy(f, deadlines, clock, f.id, leaf) {
      ChainInside(f.rest, leaf);
      if f.kids.Cons? {
        assert leaf in LeafIds(f.kids) && Chain(f, leaf) == [f.id] + Chain(f.kids, leaf);
        ChainInside(f.kids, leaf);
        assert KeptBy(f.kids, deadlines, clock, leaf, leaf);
      } else {
        assert Chain(f, leaf) == [f.id];
      }
      assert f.id in Chain(f, leaf);
    }
    if !Expired(deadlines, clock, f.id) {
      if f.kids.Nil? {
        assert KeptBy(f, deadlines, clock, f.id, f.id);
      } else if m :| m in Ids(f.kids) && Kept(f.kids, deadlines, clock, m) {
        var leaf :| KeptBy(f.kids, deadlines, clock, m, leaf);
        assert Chain(f, leaf) == [f.id] + Chain(f.kids, leaf);
        assert KeptBy(f, deadlines, clock, f.id, leaf);
      }
    }
  }

  lemma {:induction false} SweepKeeps(f: Forest, deadlines: map<NodeId, int>, clock: Clock, n: NodeId)
    requires Distinct(f) && n in Ids(f)
    requires forall x :: x in Ids(f) ==> Readable(deadlines, x)
    ensures n in Ids(Sweep(f, deadlines, clock)) <==> Kept(f, deadlines, clock, n)
    decreases f
  {
    SweepShrinks(f.kids, deadlines, clock);
    SweepShrinks(f.rest, deadlines, clock);
    if n in Ids(f.rest) {
      SweepKeeps(f.rest, deadlines, clock, n);
      KeptInRest(f, deadlines, clock, n);
    } else if n in Ids(f.kids) {
      SweepKeeps(f.kids, deadlines, clock, n);
      KeptInKids(f, deadlines, clock, n);
    } else {
      forall m | m in Ids(f.kids)
        ensures m in Ids(Sweep(f.kids, deadlines, clock)) <==> Kept(f.kids, deadlines, clock, m)
      {
        SweepKeeps(f.kids, deadlines, clock, m);
      }
      var k := Sweep(f.kids, deadlines, clock);
      assert k.Cons? ==> k.id in Ids(k);
      KeptHead(f, deadlines, clock);
    }
  }

  /** Some leaf at or below `n` has no folder that is past its deadline on the way from the top level down to it. */
  ghost predicate Alive(f: Forest, deadlines: map<NodeId, int>, clock: Clock, n: NodeId) {
    exists leaf :: leaf in LeafIds(f) && n in Chain(f, leaf)
                   && forall a :: a in Chain(f, leaf) ==> a in deadlines && clock(a) <= deadlines[a]
  }

  /** If every deadline can be read, a sweep leaves exactly the folders that some original leaf keeps alive. */
  lemma SweepSurvivors(f: Forest, deadlines: map<NodeId, int>, clock: Clock, n: NodeId)
    requires Distinct(f) && n in Ids(f)
    requires forall x :: x in Ids(f) ==> x in deadlines && 0 <= deadlines[x]
    ensures n in Ids(Sweep(f, deadlines, clock)) <==> Alive(f, deadlines, clock, n)
  {
    SweepKeeps(f, deadlines, clock, n);
    if leaf :| KeptBy(f, deadlines, clock, n, leaf) {
      ChainInside(f, leaf);
      assert leaf in LeafIds(f) && n in Chain(f, leaf)
             && forall a :: a in Chain(f, leaf) ==> a in deadlines && clock(a) <= deadlines[a];
    }
    if leaf :| leaf in LeafIds(f) && n in Chain(f, leaf)
               && forall a :: a in Chain(f, leaf) ==> a in deadlines && clock(a) <= deadlines[a] {
      assert KeptBy(f, deadlines, clock, n, leaf);
    }
  }

  lemma {:induction false} SweepKeepsChains(f: Forest, deadlines: map<NodeId, int>, clock: Clock, n: NodeId)
    requires Distinct(f) && n in Ids(Sweep(f, deadlines, clock))
    ensures Chain(Sweep(f, deadlines, clock), n) == Chain(f, n)
    decreases f
  {
    if Readable(deadlines, f.id) {
      SweepShrinks(f.kids, deadlines, clock);
      SweepShrinks(f.rest, deadlines, clock);
      if n in Ids(Sweep(f.rest, deadlines, clock)) {
        SweepKeepsChains(f.rest, deadlines, clock, n);
      } else if n != f.id {
        SweepKeepsChains(f.kids, deadlines, clock, n);
      }
    }
  }

  lemma {:induction false} SweepKeepsLeaves(f: Forest, deadlines: map<NodeId, int>, clock: Clock)
    requires Distinct(f)
    ensures LeafIds(Sweep(f, deadlines, clock)) == LeafIds(f) * Ids(Sweep(f, deadlines, clock))
    decreases f
  {
    LeavesAreFolders(f);
    if f.Cons? && Readable(deadlines, f.id) {
      LeavesAreFolders(f.kids);
      LeavesAreFolders(f.rest);
      SweepShrinks(f.kids, deadlines, clock);
      SweepShrinks(f.rest, deadlines, clock);
      SweepKeepsLeaves(f.rest, deadlines, clock);
      if !Expired(deadlines, clock, f.id) {
        SweepKeepsLeaves(f.kids, deadlines, clock);
      }
    }
  }

  /** Survivors keep their ancestors, and no folder becomes a leaf. */
  lemma SweepKeepsPlaces(f: Forest, deadlines: map<NodeId, int>, clock: Clock)
    requires Distinct(f)
    ensures forall n :: n in Ids(Sweep(f, deadlines, clock)) ==> Chain(Sweep(f, deadlines, clock), n) == Chain(f, n)
    ensures LeafIds(Sweep(f, deadlines, clock)) == LeafIds(f) * Ids(Sweep(f, deadlines, clock))
  {
    forall n | n in Ids(Sweep(f, deadlines, clock))
      ensures Chain(Sweep(f, deadlines, clock), n) == Chain(f, n)
    {
      SweepKeepsChains(f, deadlines, clock, n);
    }
    SweepKeepsLeaves(f, deadlines, clock);
  }

  /** A second sweep by the same clock changes nothing. */
  lemma {:induction false} SweepTwice(f: Forest, deadlines: map<NodeId, int>, clock: Clock)
    ensures Sweep(Sweep(f, deadlines, clock), deadlines, clock) == Sweep(f, deadlines, clock)
  {
    if f.Cons? {
      SweepTwice(f.kids, deadlines, clock);
      SweepTwice(f.rest, deadlines, clock);
    }
  }

  lemma {:induction false} SweepNothing(f: Forest, deadlines: map<NodeId, int>, clock: Clock)
    requires forall x :: x in Ids(f) ==> Readable(deadlines, x) && !Expired(deadlines, clock, x)
    ensures Sweep(f, deadlines, clock) == f
  {
    if f.Cons? {
      SweepNothing(f.kids, deadlines, clock);
      SweepNothing(f.rest, deadlines, clock);
    }
  }

  // ----- Deleting one folder with pruning -----

  function AtOne(id: NodeId): int {
    1
  }

  /** Deadlines under which only `n` has expired at time 1. */
  function OnlyExpired(f: Forest, n: NodeId): map<NodeId, int> {
    map x | x in Ids(f) :: if x == n then 0 else 1
  }

  /** Deleting a folder and pruning upward is a sweep in which that folder alone has expired. */
  lemma {:induction false} DropAndPruneIsSweep(here: NodeId, f: Forest, p: seq<string>, name: string,
                                               deadlines: map<NodeId, int>)
    requires Distinct(f) && Resolve(here, f, p + [name]).Some?
    requires var n := Resolve(here, f, p + [name]).value.id;
             forall x :: x in Ids(f) ==> x in deadlines && deadlines[x] == if x == n then 0 else 1
    ensures Resolve(here, f, p).Some?
    ensures Plug(f, p, RemoveName(Resolve(here, f, p).value.kids, name)) == Sweep(f, deadlines, AtOne)
    decreases f
  {
    var full := p + [name];
    var n := Resolve(here, f, full).value.id;
    if f.name == full[0] {
      assert n == f.id || n in Ids(f.kids) by { ResolveSpot(f.id, f.kids, full[1..]); }
      SweepElsewhere(f.rest, deadlines, n);
      if p != [] {
        assert full[1..] == p[1..] + [name];
        assert n in Ids(f.kids) by { ResolveSpot(f.id, f.kids, full[1..]); }
        DropAndPruneIsSweep(f.id, f.kids, p[1..], name, deadlines);
        assert f.kids.Cons?;
      } else {
        assert full[1..] == [];
      }
    } else {
      assert n in Ids(f.rest) by { ResolveSpot(here, f.rest, full); }
      SweepElsewhere(f.kids, deadlines, n);
      DropAndPruneIsSweep(here, f.rest, p, name, deadlines);
    }
  }

  lemma SweepElsewhere(f: Forest, deadlines: map<NodeId, int>, n: NodeId)
    requires n !in Ids(f) && forall x :: x in Ids(f) ==> x in deadlines && deadlines[x] == if x == n then 0 else 1
    ensures Sweep(f, deadlines, AtOne) == f
  {
    SweepNothing(f, deadlines, AtOne);
  }

  lemma DropAndPruneSweeps(home: NodeId, f: Forest, path: seq<string>)
    requires path != [] && Distinct(f) && Resolve(home, f, path).Some?
    ensures DropAndPrune(f, path) == Sweep(f, OnlyExpired(f, Resolve(home, f, path).value.id), AtOne)
  {
    assert path == Parent(path) + [Last(path)];
    DropAndPruneIsSweep(home, f, Parent(path), Last(path), OnlyExpired(f, Resolve(home, f, path).value.id));
    ResolveKids(home, NodeId(""), f, Parent(path));
  }

  /** Some leaf at or below `x` is not below `n`. */
  ghost predicate HasOtherLeaf(f: Forest, n: NodeId, x: NodeId) {
    exists l :: l in LeafIds(f) && x in Chain(f, l) && n !in Chain(f, l)
  }

  lemma KeptIfOnlyExpired(f: Forest, n: NodeId, x: NodeId)
    ensures Kept(f, OnlyExpired(f, n), AtOne, x) <==> HasOtherLeaf(f, n, x)
  {
    var deadlines := OnlyExpired(f, n);
    if l :| KeptBy(f, deadlines, AtOne, x, l) {
      ChainInside(f, l);
      assert l in LeafIds(f) && x in Chain(f, l) && n !in Chain(f, l);
    }
    if l :| l in LeafIds(f) && x in Chain(f, l) && n !in Chain(f, l) {
      ChainInside(f, l);
      assert KeptBy(f, deadlines, AtOne, x, l);
    }
  }

  /** A deletion with pruning keeps exactly the folders that still have one of the other leaves at or below them. */
  lemma DropAndPruneKeeps(home: NodeId, f: Forest, path: seq<string>, x: NodeId)
    requires path != [] && Distinct(f) && Resolve(home, f, path).Some? && x in Ids(f)
    ensures x in Ids(DropAndPrune(f, path)) <==> HasOtherLeaf(f, Resolve(home, f, path).value.id, x)
  {
    var n := Resolve(home, f, path).value.id;
    DropAndPruneSweeps(home, f, path);
    SweepKeeps(f, OnlyExpired(f, n), AtOne, x);
    KeptIfOnlyExpired(f, n, x);
  }

  /** It creates no leaf: the leaves afterwards are the earlier ones minus those at or under the deleted folder. */
  lemma DropAndPruneLeaves(home: NodeId, f: Forest, path: seq<string>)
    requires path != [] && Distinct(f) && Resolve(home, f, path).Some?
    ensures LeafIds(DropAndPrune(f, path)) ==
            set l | l in LeafIds(f) && Resolve(home, f, path).value.id !in Chain(f, l)
  {
    var n := Resolve(home, f, path).value.id;
    DropAndPruneSweeps(home, f, path);
    SweepKeepsPlaces(f, OnlyExpired(f, n), AtOne);
    LeavesAreFolders(f);
    forall l | l in LeafIds(f)
      ensures l in Ids(DropAndPrune(f, path)) <==> n !in Chain(f, l)
    {
      DropAndPruneKeeps(home, f, path, l);
      LeafChains(f, l);
      ChainInside(f, l);
    }
  }

  /** A leaf is on no other leaf's chain. */
  lemma {:induction false} LeafChains(f: Forest, l: NodeId)
    requires Distinct(f) && l in LeafIds(f)
    ensures forall m :: m in LeafIds(f) && l in Chain(f, m) ==> m == l
  {
    LeavesAreFolders(f.kids);
    LeavesAreFolders(f.rest);
    forall m | m in LeafIds(f) && l in Chain(f, m)
      ensures m == l
    {
      ChainInside(f.kids, m);
      ChainInside(f.rest, m);
      if l in LeafIds(f.kids) && f.kids.Cons? {
        LeafChains(f.kids, l);
      } else if l in LeafIds(f.rest) {
        LeafChains(f.rest, l);
      }
    }
  }

  // ----- Listing the leaves -----

  datatype Found = Found(id: NodeId, path: seq<string>)

  /** The leaves in pre-order, each with its path below `prefix`. */
  function Leaves(f: Forest, prefix: seq<string>): seq<Found> {
    match f
    case Nil => []
    case Cons(id, name, kids, rest) =>
      (if kids.Nil? then [Found(id, prefix + [name])] else Leaves(kids, prefix + [name])) + Leaves(rest, prefix)
  }

  function Preorder(f: Forest): seq<NodeId> {
    match f
    case Nil => []
    case Cons(id, _, kids, rest) => [id] + Preorder(kids) + Preorder(rest)
  }

  function Only(nodes: seq<NodeId>, keep: set<NodeId>): seq<NodeId> {
    if nodes == [] then []
    else (if nodes[0] in keep then [nodes[0]] else []) + Only(nodes[1..], keep)
  }

  function FoundIds(leaves: seq<Found>): seq<NodeId> {
    if leaves == [] then [] else [leaves[0].id] + FoundIds(leaves[1..])
  }

  lemma {:induction false} OnlyConcat(a: seq<NodeId>, b: seq<NodeId>, keep: set<NodeId>)
    ensures Only(a + b, keep) == Only(a, keep) + Only(b, keep)
  {
    if a == [] {
      assert a + b == b;
    } else {
      assert (a + b)[1..] == a[1..] + b && (a + b)[0] == a[0];
      OnlyConcat(a[1..], b, keep);
      var first := if a[0] in keep then [a[0]] else [];
      assert Only(a, keep) == first + Only(a[1..], keep);
      assert Only(a + b, keep) == first + (Only(a[1..], keep) + Only(b, keep));
    }
  }

  lemma {:induction false} FoundIdsConcat(a: seq<Found>, b: seq<Found>)
    ensures FoundIds(a + b) == FoundIds(a) + FoundIds(b)
  {
    if a == [] {
      assert a + b == b;
    } else {
      assert (a + b)[1..] == a[1..] + b;
      FoundIdsConcat(a[1..], b);
    }
  }

  /** The listing is the pre-order of the tree restricted to its leaves. */
  lemma {:induction false} LeavesArePreorder(f: Forest, prefix: seq<string>, keep: set<NodeId>)
    requires Distinct(f) && keep * Ids(f) == LeafIds(f)
    ensures FoundIds(Leaves(f, prefix)) == Only(Preorder(f), keep)
    decreases f
  {
    if f.Cons? {
      LeavesAreFolders(f.kids);
      LeavesAreFolders(f.rest);
      assert keep * Ids(f.kids) == LeafIds(f.kids);
      assert keep * Ids(f.rest) == LeafIds(f.rest);
      LeavesArePreorder(f.kids, prefix + [f.name], keep);
      LeavesArePreorder(f.rest, prefix, keep);
      OnlyConcat([f.id] + Preorder(f.kids), Preorder(f.rest), keep);
      OnlyConcat([f.id], Preorder(f.kids), keep);
      assert Only([f.id], keep) == if f.kids.Nil? then [f.id] else [];
      FoundIdsConcat(if f.kids.Nil? then [Found(f.id, prefix + [f.name])] else Leaves(f.kids, prefix + [f.name]),
                     Leaves(f.rest, prefix));
    }
  }

  lemma {:induction false} PreorderOnce(f: Forest)
    requires Distinct(f)
    ensures forall x :: x in Preorder(f) <==> x in Ids(f)
    ensures forall i, j :: 0 <= i < j < |Preorder(f)| ==> Preorder(f)[i] != Preorder(f)[j]
  {
    if f.Cons? {
      PreorderOnce(f.kids);
      PreorderOnce(f.rest);
      var a, b := Preorder(f.kids), Preorder(f.rest);
      assert Preorder(f) == [f.id] + a + b;
      forall i, j | 0 <= i < j < |Preorder(f)|
        ensures Preorder(f)[i] != Preorder(f)[j]
      {
        if i > |a| {
          assert Preorder(f)[i] == b[i - 1 - |a|] && Preorder(f)[j] == b[j - 1 - |a|];
        } else if j <= |a| {
          assert Preorder(f)[j] == a[j - 1];
          assert i > 0 ==> Preorder(f)[i] == a[i - 1];
        } else {
          assert Preorder(f)[j] == b[j - 1 - |a|] && b[j - 1 - |a|] in b;
          assert i > 0 ==> Preorder(f)[i] == a[i - 1] && a[i - 1] in a;
        }
      }
    }
  }

  lemma {:induction false} OnlyOnce(nodes: seq<NodeId>, keep: set<NodeId>)
    requires forall i, j :: 0 <= i < j < |nodes| ==> nodes[i] != nodes[j]
    ensures forall x :: x in Only(nodes, keep) <==> x in nodes && x in keep
    ensures forall i, j :: 0 <= i < j < |Only(nodes, keep)| ==> Only(nodes, keep)[i] != Only(nodes, keep)[j]
  {
    if nodes != [] {
      OnlyOnce(nodes[1..], keep);
      var r := Only(nodes[1..], keep);
      assert nodes[0] !in r;
      assert Only(nodes, keep) == (if nodes[0] in keep then [nodes[0]] else []) + r;
      forall i, j | 0 <= i < j < |Only(nodes, keep)|
        ensures Only(nodes, keep)[i] != Only(nodes, keep)[j]
      {
        if nodes[0] in keep {
          assert Only(nodes, keep)[j] == r[j - 1] && r[j - 1] in r;
          assert i > 0 ==> Only(nodes, keep)[i] == r[i - 1];
        }
      }
    }
  }

  /** Every leaf is listed exactly once. */
  lemma LeavesOnce(f: Forest, prefix: seq<string>)
    requires Distinct(f)
    ensures var ids := FoundIds(Leaves(f, prefix));
            && (forall x :: x in ids <==> x in LeafIds(f))
            && (forall i, j :: 0 <= i < j < |ids| ==> ids[i] != ids[j])
  {
    LeavesAreFolders(f);
    LeavesArePreorder(f, prefix, LeafIds(f));
    PreorderOnce(f);
    OnlyOnce(Preorder(f), LeafIds(f));
  }

  /** Every listed path resolves to its leaf. */
  lemma {:induction false} LeavesResolve(here: NodeId, f: Forest, prefix: seq<string>, i: nat)
    requires DistinctNames(f) && i < |Leaves(f, prefix)|
    ensures var e := Leaves(f, prefix)[i];
            && prefix <= e.path && e.path != prefix
            && e.path[|prefix|] in HeadNames(f)
            && Resolve(here, f, e.path[|prefix|..]) == Some(Spot(e.id, Nil))
    decreases f
  {
    var e := Leaves(f, prefix)[i];
    var first := if f.kids.Nil? then [Found(f.id, prefix + [f.name])] else Leaves(f.kids, prefix + [f.name]);
    assert Leaves(f, prefix) == first + Leaves(f.rest, prefix);
    if i >= |first| {
      assert e == Leaves(f.rest, prefix)[i - |first|];
      LeavesResolve(here, f.rest, prefix, i - |first|);
      assert e.path[|prefix|..][0] == e.path[|prefix|];
    } else {
      assert e == first[i];
      if f.kids.Nil? {
        assert e.path[|prefix|..] == [f.name];
      } else {
        LeavesResolve(f.id, f.kids, prefix + [f.name], i);
        assert e.path[..|prefix|] == (prefix + [f.name])[..|prefix|] == prefix;
        assert e.path[|prefix|] == (prefix + [f.name])[|prefix|] == f.name;
        assert e.path[|prefix|..][1..] == e.path[|prefix + [f.name]|..];
      }
    }
  }
}
