/** The expiry sweep: a walk over the folder tree that deletes from the tree it is walking. */
module Expiry {
  import opened Forest
  import opened Buckets
  import opened Cuts
  import opened Pruning
  import opened FileSys
  import Paths

  /** The sweep has replaced the earlier siblings in front of `rest` by `done`; the folder `path` is still in place. */
  lemma ChildInPlace(home: NodeId, start: Forest, path: seq<string>, done: Forest, rest: Forest)
    requires Resolve(home, start, path).Some? && rest.Cons?
    requires DistinctNames(SetKids(start, path, Append(done, rest)))
    ensures var f := SetKids(start, path, Append(done, rest));
            && Resolve(home, f, path) == Some(Spot(Resolve(home, start, path).value.id, Append(done, rest)))
            && Resolve(home, f, path + [rest.name]) == Some(Spot(rest.id, rest.kids))
            && rest.name !in HeadNames(done)
  {
    var f := SetKids(start, path, Append(done, rest));
    AppendFacts(done, rest);
    SetKidsResolve(home, start, path, Append(done, rest));
    ResolveSpot(home, f, path);
    assert rest.name in HeadNames(rest);
    ResolveAfter(done, rest);
    ResolveConcat(home, f, path, [rest.name]);
  }

  lemma {:induction false} ResolveAfter(done: Forest, c: Forest)
    requires c.Cons? && c.name !in HeadNames(done)
    ensures forall here :: Resolve(here, Append(done, c), [c.name]) == Some(Spot(c.id, c.kids))
  {
    if done.Cons? {
      ResolveAfter(done.rest, c);
      forall here
        ensures Resolve(here, Append(done, c), [c.name]) == Some(Spot(c.id, c.kids))
      {
        assert Resolve(here, Append(done, c), [c.name]) == Resolve(here, Append(done.rest, c), [c.name]);
      }
    } else {
      assert [c.name][1..] == [];
    }
  }

  // ----- One folder's children during the walk -----

  /** The siblings swept so far, followed by others. */
  function Onto(done: Cut, r: Cut): Cut {
    Cut(Append(done.kids, r.kids), r.prune && done.kids.Nil?, done.left + r.left)
  }

  lemma {:induction false} GraftAfter(done: Forest, c: Forest, k: Cut, stuck: set<NodeId>)
    requires c.Cons? && c.name !in HeadNames(done)
    ensures Graft(Append(done, c), [c.name], k, stuck) == Onto(Cut(done, false, {}), First(c, k, stuck))
  {
    if done.Cons? {
      GraftAfter(done.rest, c, k, stuck);
    } else {
      assert [c.name][1..] == [];
    }
  }

  /** The siblings swept so far, after one more child. */
  function Advance(done: Cut, c: Forest, deadlines: map<NodeId, int>, clock: Clock, stuck: set<NodeId>): Cut
    requires c.Cons?
  {
    var k := Below(c, deadlines, clock, stuck);
    Cut(if k.prune then done.kids else Append(done.kids, Cons(c.id, c.name, k.kids, Nil)),
        First(c, k, stuck).prune && done.kids.Nil?,
        done.left + First(c, k, stuck).left)
  }

  /** The siblings swept so far and those still to come. */
  function Whole(done: Cut, rest: Forest): Cut {
    Cut(Append(done.kids, rest), done.prune, done.left)
  }

  lemma AdvanceWhole(done: Cut, c: Forest, deadlines: map<NodeId, int>, clock: Clock, stuck: set<NodeId>)
    requires c.Cons?
    ensures Whole(Advance(done, c, deadlines, clock, stuck), c.rest) ==
            Onto(done, First(c, Below(c, deadlines, clock, stuck), stuck))
  {
    AppendAssoc(done.kids, Cons(c.id, c.name, Below(c, deadlines, clock, stuck).kids, Nil), c.rest);
  }

  /** What the sweep makes of all the siblings, once those in front of `rest` have become `done`. */
  function Finished(done: Cut, rest: Forest, deadlines: map<NodeId, int>, clock: Clock, stuck: set<NodeId>): Cut {
    if rest.Nil? then done else Onto(done, SweepCut(rest, deadlines, clock, stuck))
  }

  lemma AdvanceSweeps(done: Cut, c: Forest, deadlines: map<NodeId, int>, clock: Clock, stuck: set<NodeId>)
    requires c.Cons? && Readable(deadlines, c.id)
    ensures var next := Advance(done, c, deadlines, clock, stuck);
            Finished(done, c, deadlines, clock, stuck) ==
            if Ends(c, deadlines, clock, stuck) then Whole(next, c.rest)
            else Finished(next, c.rest, deadlines, clock, stuck)
  {
    AdvanceWhole(done, c, deadlines, clock, stuck);
    var k, r := Below(c, deadlines, clock, stuck), SweepCut(c.rest, deadlines, clock, stuck);
    AppendAssoc(done.kids, Cons(c.id, c.name, k.kids, Nil), r.kids);
    assert done.left + (First(c, k, stuck).left + r.left) == done.left + First(c, k, stuck).left + r.left;
  }

  /** Editing the children of the next child edits the folder being walked. */
  lemma GraftChild(home: NodeId, start: Forest, path: seq<string>, done: Cut, c: Forest, k: Cut, stuck: set<NodeId>)
    requires Resolve(home, start, path).Some? && c.Cons? && !done.prune
    requires DistinctNames(SetKids(start, path, Append(done.kids, c)))
    ensures Graft(start, path, Whole(done, c), stuck) ==
            Cut(SetKids(start, path, Append(done.kids, c)), false, done.left)
    ensures var f := SetKids(start, path, Append(done.kids, c));
            var below := Graft(f, path + [c.name], k, stuck);
            && Resolve(home, f, path + [c.name]) == Some(Spot(c.id, c.kids))
            && Graft(start, path, Onto(done, First(c, k, stuck)), stuck) ==
               below.(left := done.left + below.left)
            && below == Graft(start, path, Onto(Cut(done.kids, false, {}), First(c, k, stuck)), stuck)
  {
    var f, r := SetKids(start, path, Append(done.kids, c)), First(c, k, stuck);
    var plain := Onto(Cut(done.kids, false, {}), r);
    GraftPlain(home, start, path, Append(done.kids, c), done.left, stuck);
    ChildInPlace(home, start, path, done.kids, c);
    GraftConcat(home, f, path, [c.name], k, stuck);
    GraftAfter(done.kids, c, k, stuck);
    GraftSetKids(start, path, Append(done.kids, c), plain, stuck);
    GraftLeft(home, start, path, plain, done.left, stuck);
    assert plain.left == r.left;
  }

  /** The deletion of an expired child fails only if the sweep of the siblings ends there, and always if its own
      directory cannot be removed. */
  lemma WhenDeletionFails(home: NodeId, start: Forest, path: seq<string>, done: Forest, c: Forest, stuck: set<NodeId>)
    requires Resolve(home, start, path).Some? && c.Cons?
    ensures var r := Graft(start, path, Onto(Cut(done, false, {}), First(c, Cut(c.kids, true, {}), stuck)), stuck);
            && (c.id in stuck ==> r.left != {})
            && (c.id !in stuck && c.rest.Cons? ==> r.left == {})
  {
    var r := Onto(Cut(done, false, {}), First(c, Cut(c.kids, true, {}), stuck));
    if !r.prune {
      GraftPlain(home, start, path, r.kids, r.left, stuck);
    }
    if c.id in stuck {
      assert c.id in r.left;
    }
  }

  // ----- The walk -----

  /** Reads one folder's deadline and deletes the folder, pruning upward, if it has passed. It fails on a deadline that
      cannot be read and on a deletion that fails. */
  method CheckDeadlineAndDelete(fs: FileSystem, id: NodeId, prefix: string, deadlines: map<NodeId, int>, clock: Clock,
                                stuck: set<NodeId>, ghost path: seq<string>) returns (ok: bool)
    requires fs.Valid() && CleanNames(fs.root)
    requires path != [] && prefix == Paths.PathString(path)
    requires Resolve(fs.home, fs.root, path).Some? && Resolve(fs.home, fs.root, path).value.id == id
    modifies fs
    ensures fs.Valid() && CleanNames(fs.root) && old(fs.committed) <= fs.committed
    ensures ok <==> id in deadlines && 0 <= deadlines[id]
                    && (deadlines[id] < clock(id) ==> !Blocked(fs.home, old(fs.root), path, stuck))
    ensures id in deadlines && 0 <= deadlines[id] < clock(id) ==>
      && Removed(fs.home, old(fs.root), old(fs.Now()), fs.root, fs.Now(), path, stuck)
      && (ok <==> Removal(old(fs.root), path, stuck).left == {})
      && (ok ==> fs.root == DropAndPrune(old(fs.root), path) && id !in fs.tree)
      && (!ok ==> StoppedAtStuck(fs.home, old(fs.root), old(fs.Now()), fs.root, fs.Now(), path, stuck))
    ensures !(id in deadlines && 0 <= deadlines[id] < clock(id)) ==>
      fs.Now() == old(fs.Now()) && fs.root == old(fs.root) && id in Ids(fs.root)
  {
    ResolveSpot(fs.home, fs.root, path);
    if id !in deadlines || deadlines[id] < 0 {
      return false;
    }
    if clock(id) > deadlines[id] {
      CleanPath(fs.home, fs.root, path);
      Paths.HierarchyOfPathString(path);
      ghost var before := fs.root;
      ok := fs.RecursiveDeleteFolder(Paths.Hierarchy(prefix), stuck);
      CleanAfterRemoval(fs.home, before, path, stuck);
      if ok {
        GoneAfterRemoval(fs.home, before, path);
      }
      return ok;
    }
    return true;
  }

  lemma CleanAfterRemoval(home: NodeId, f: Forest, path: seq<string>, stuck: set<NodeId>)
    requires CleanNames(f) && Resolve(home, f, path).Some?
    ensures CleanNames(Removal(f, path, stuck).kids)
  {
    ResolveSpot(home, f, path);
    ResolveKids(home, NodeId(""), f, path);
    GraftShrinks(f, path, Cut(KidsAt(f, path), true, {}), stuck);
  }

  lemma GoneAfterRemoval(home: NodeId, f: Forest, path: seq<string>)
    requires path != [] && Distinct(f) && Resolve(home, f, path).Some?
    ensures var id := Resolve(home, f, path).value.id; id in Ids(f) && id !in Ids(DropAndPrune(f, path))
  {
    ResolveSpot(home, f, path);
    DropAndPruneKeeps(home, f, path, Resolve(home, f, path).value.id);
  }

  /** A walk over one folder's children: what it started from. */
  datatype Walk = Walk(start: Forest, state: Buckets, path: seq<string>, kids: Forest, deadlines: map<NodeId, int>,
                       clock: Clock, stuck: set<NodeId>)
  {
    /** The tree and the buckets once the children have become `r`. */
    ghost predicate Has(r: Cut, f: Forest, b: Buckets, home: NodeId) {
      var cut := Graft(start, path, r, stuck);
      f == cut.kids && TrimmedBut(state, start, b, f, home, cut.left)
    }

    /** The children in front of `rest` have become `done`. */
    ghost predicate At(done: Cut, rest: Forest, f: Forest, b: Buckets, home: NodeId) {
      && Size(rest) <= Size(kids) && Resolve(home, start, path).Some? && (rest.Cons? ==> !done.prune)
      && Has(Whole(done, rest), f, b, home)
      && Finished(done, rest, deadlines, clock, stuck) == SweepCut(kids, deadlines, clock, stuck)
    }

    ghost predicate Over(f: Forest, b: Buckets, home: NodeId) {
      Has(SweepCut(kids, deadlines, clock, stuck), f, b, home)
    }

    function Next(done: Cut, c: Forest): Cut
      requires c.Cons?
    {
      Advance(done, c, deadlines, clock, stuck)
    }
  }

  lemma WalkStarts(home: NodeId, w: Walk)
    requires Resolve(home, w.start, w.path).Some? && Resolve(home, w.start, w.path).value.kids == w.kids
    ensures w.At(Cut(Nil, false, {}), w.kids, w.start, w.state, home)
  {
    NothingTrimmed(w.state, w.start, home);
    TrimmedIsTrimmedBut(w.state, w.start, w.state, w.start, home);
    GraftPlain(home, w.start, w.path, w.kids, {}, w.stuck);
    SetKidsSame(home, w.start, w.path);
    var r := SweepCut(w.kids, w.deadlines, w.clock, w.stuck);
    assert {} + r.left == r.left;
  }

  /** What the visit of one child does to the tree and the buckets. */
  ghost predicate Visited(home: NodeId, w: Walk, f: Forest, b: Buckets, f': Forest, b': Buckets, c: Forest, ok: bool)
    requires c.Cons?
  {
    var cut := Graft(f, w.path + [c.name], Below(c, w.deadlines, w.clock, w.stuck), w.stuck);
    && (ok <==> Readable(w.deadlines, c.id) && (Expired(w.deadlines, w.clock, c.id) ==> cut.left == {}))
    && (if Readable(w.deadlines, c.id) then f' == cut.kids && TrimmedBut(b, f, b', f', home, cut.left)
        else f' == f && b' == b)
  }

  lemma WalkStep(home: NodeId, w: Walk, f: Forest, b: Buckets, f': Forest, b': Buckets, done: Cut, c: Forest, ok: bool)
    requires w.At(done, c, f, b, home) && c.Cons? && DistinctNames(f)
    requires Visited(home, w, f, b, f', b', c, ok)
    ensures ok ==> w.At(w.Next(done, c), c.rest, f', b', home)
    ensures !ok ==> w.Over(f', b', home)
  {
    if Readable(w.deadlines, c.id) {
      AfterVisit(home, w, f, b, f', b', done, c, ok);
      AdvanceSweeps(done, c, w.deadlines, w.clock, w.stuck);
      AppendNil(w.Next(done, c).kids);
    } else {
      assert Onto(done, Cut(c, false, {})) == Whole(done, c) by { assert done.left + {} == done.left; }
    }
  }

  lemma AfterVisit(home: NodeId, w: Walk, f: Forest, b: Buckets, f': Forest, b': Buckets, done: Cut, c: Forest,
                   ok: bool)
    requires w.At(done, c, f, b, home) && c.Cons? && DistinctNames(f) && Readable(w.deadlines, c.id)
    requires Visited(home, w, f, b, f', b', c, ok)
    ensures w.Has(Whole(w.Next(done, c), c.rest), f', b', home)
    ensures if ok then c.rest.Nil? || !Ends(c, w.deadlines, w.clock, w.stuck)
            else Ends(c, w.deadlines, w.clock, w.stuck)
  {
    var k := Below(c, w.deadlines, w.clock, w.stuck);
    GraftPlain(home, w.start, w.path, Append(done.kids, c), done.left, w.stuck);
    GraftChild(home, w.start, w.path, done, c, k, w.stuck);
    var cut := Graft(f, w.path + [c.name], k, w.stuck);
    TrimmedButTwice(w.state, w.start, b, f, b', f', home, done.left, cut.left);
    AdvanceWhole(done, c, w.deadlines, w.clock, w.stuck);
    WhenDeletionFails(home, w.start, w.path, done.kids, c, w.stuck);
  }

  lemma WalkEnds(home: NodeId, w: Walk, f: Forest, b: Buckets, done: Cut, rest: Forest)
    requires w.At(done, rest, f, b, home) && Heads(rest) == []
    ensures w.Over(f, b, home)
  {
    AppendNil(done.kids);
  }

  /** One child of a visited folder. */
  method VisitChild(fs: FileSystem, child: NodeId, prefix: string, deadlines: map<NodeId, int>, clock: Clock,
                    stuck: set<NodeId>, ghost w: Walk, ghost done: Cut, ghost c: Forest)
    returns (ok: bool)
    requires fs.Valid() && CleanNames(fs.root) && prefix == Paths.PathString(w.path)
    requires c.Cons? && c.id == child && w.deadlines == deadlines && w.clock == clock && w.stuck == stuck
    requires w.At(done, c, fs.root, fs.Now(), fs.home)
    modifies fs
    ensures fs.Valid() && CleanNames(fs.root) && old(fs.committed) <= fs.committed
    ensures ok ==> w.At(w.Next(done, c), c.rest, fs.root, fs.Now(), fs.home)
    ensures !ok ==> w.Over(fs.root, fs.Now(), fs.home)
    decreases Size(c), 0, 1
  {
    ghost var before, state := fs.root, fs.Now();
    GraftPlain(fs.home, w.start, w.path, Append(done.kids, c), done.left, stuck);
    ChildInPlace(fs.home, w.start, w.path, done.kids, c);
    ok := VisitFolder(fs, child, prefix, deadlines, clock, stuck, w, c);
    WalkStep(fs.home, w, before, state, fs.root, fs.Now(), done, c, ok);
  }

  /** The folder's deadline first, then its own children, even if it has just been deleted. */
  method VisitFolder(fs: FileSystem, child: NodeId, prefix: string, deadlines: map<NodeId, int>, clock: Clock,
                     stuck: set<NodeId>, ghost w: Walk, ghost c: Forest)
    returns (ok: bool)
    requires fs.Valid() && CleanNames(fs.root) && prefix == Paths.PathString(w.path)
    requires c.Cons? && c.id == child && w.deadlines == deadlines && w.clock == clock && w.stuck == stuck
    requires Resolve(fs.home, fs.root, w.path + [c.name]) == Some(Spot(child, c.kids))
    modifies fs
    ensures fs.Valid() && CleanNames(fs.root) && old(fs.committed) <= fs.committed
    ensures Visited(fs.home, w, old(fs.root), old(fs.Now()), fs.root, fs.Now(), c, ok)
    decreases Size(c), 0, 0
  {
    ghost var path := w.path + [c.name];
    ResolvedIsStored(fs.Now(), fs.home, fs.root, path);
    NameBelow(fs.Now(), fs.home, fs.root, path);
    Paths.PathStringSnoc(w.path, c.name);
    ResolveKids(fs.home, NodeId(""), fs.root, path);
    var actualName := if child in fs.names then fs.names[child] else "";
    var childPrefix := prefix + "/" + actualName;
    ok := CheckDeadlineAndDelete(fs, child, childPrefix, deadlines, clock, stuck, path);
    if !ok {
      return;
    }
    Traverse(fs, child, childPrefix, deadlines, clock, stuck, path, c.kids);
  }

  /** Visits a folder's children from a snapshot of its child list. Deleting a child may prune the folder itself and
      its ancestors, and a visited child may be gone by the time its own visit starts. */
  method Traverse(fs: FileSystem, node: NodeId, prefix: string, deadlines: map<NodeId, int>, clock: Clock,
                  stuck: set<NodeId>, ghost path: seq<string>, ghost kids: Forest)
    requires fs.Valid() && CleanNames(fs.root) && prefix == Paths.PathString(path)
    requires node in fs.tree ==> Resolve(fs.home, fs.root, path) == Some(Spot(node, kids))
    modifies fs
    ensures fs.Valid() && CleanNames(fs.root) && old(fs.committed) <= fs.committed
    ensures node in old(fs.tree) ==>
      var cut := Graft(old(fs.root), path, SweepCut(kids, deadlines, clock, stuck), stuck);
      && fs.root == cut.kids
      && TrimmedBut(old(fs.Now()), old(fs.root), fs.Now(), fs.root, fs.home, cut.left)
    ensures node !in old(fs.tree) ==> fs.Now() == old(fs.Now()) && fs.root == old(fs.root)
    decreases Size(kids), 2
  {
    if node !in fs.tree {
      return;
    }
    ResolvedIsStored(fs.Now(), fs.home, fs.root, path);
    ghost var w := Walk(fs.root, fs.Now(), path, kids, deadlines, clock, stuck);
    WalkStarts(fs.home, w);
    VisitChildren(fs, fs.tree[node], prefix, deadlines, clock, stuck, w);
  }

  /** The loop over the snapshot. */
  method VisitChildren(fs: FileSystem, children: seq<NodeId>, prefix: string, deadlines: map<NodeId, int>, clock: Clock,
                       stuck: set<NodeId>, ghost w: Walk)
    requires fs.Valid() && CleanNames(fs.root) && prefix == Paths.PathString(w.path)
    requires w.deadlines == deadlines && w.clock == clock && w.stuck == stuck
    requires children != [] && children[1..] == Heads(w.kids)
    requires w.At(Cut(Nil, false, {}), w.kids, fs.root, fs.Now(), fs.home)
    modifies fs
    ensures fs.Valid() && CleanNames(fs.root) && old(fs.committed) <= fs.committed
    ensures w.Over(fs.root, fs.Now(), fs.home)
    decreases Size(w.kids), 1
  {
    ghost var done, rest := Cut(Nil, false, {}), w.kids;
    var i := 1; // entry 0 is the parent
    while i < |children|
      invariant 1 <= i <= |children| && children[i..] == Heads(rest)
      invariant fs.Valid() && CleanNames(fs.root) && old(fs.committed) <= fs.committed
      invariant w.At(done, rest, fs.root, fs.Now(), fs.home)
    {
      assert Heads(rest)[0] == children[i] && Heads(rest)[1..] == Heads(rest.rest);
      var ok := VisitChild(fs, children[i], prefix, deadlines, clock, stuck, w, done, rest);
      if !ok {
        return;
      }
      done, rest := w.Next(done, rest), rest.rest;
      i := i + 1;
    }
    WalkEnds(fs.home, w, fs.root, fs.Now(), done, rest);
  }

  /** One round of the sweep over the whole device; the directories of the folders in `stuck` cannot be removed. */
  method DeleteExpired(fs: FileSystem, deadlines: map<NodeId, int>, clock: Clock, stuck: set<NodeId>)
    requires fs.Valid() && CleanNames(fs.root)
    modifies fs
    ensures fs.Valid() && CleanNames(fs.root) && old(fs.committed) <= fs.committed
    ensures var cut := SweepCut(old(fs.root), deadlines, clock, stuck);
      && fs.root == cut.kids
      && TrimmedBut(old(fs.Now()), old(fs.root), fs.Now(), fs.root, fs.home, cut.left)
    ensures Ids(Sweep(old(fs.root), deadlines, clock)) <= Ids(fs.root)
    ensures stuck !! Ids(old(fs.root)) ==>
      && fs.root == Sweep(old(fs.root), deadlines, clock)
      && Trimmed(old(fs.Now()), old(fs.root), fs.Now(), fs.root, fs.home)
    ensures stuck !! Ids(old(fs.root))
            && (forall x :: x in Ids(old(fs.root)) ==> x in deadlines && 0 <= deadlines[x]) ==>
              forall n :: n in Ids(old(fs.root)) ==>
                (n in fs.tree <==> Alive(old(fs.root), deadlines, clock, n))
  {
    ghost var start, state := fs.root, fs.Now();
    RepKeys(state, fs.home, start);
    Traverse(fs, fs.home, "", deadlines, clock, stuck, [], start);
    SweepCutKeeps(start, deadlines, clock, stuck);
    if stuck !! Ids(start) {
      SweepCutFree(start, deadlines, clock, stuck);
      TrimmedIsTrimmedBut(state, start, fs.Now(), fs.root, fs.home);
      RepKeys(fs.Now(), fs.home, fs.root);
      if forall x :: x in Ids(start) ==> x in deadlines && 0 <= deadlines[x] {
        forall n | n in Ids(start)
          ensures n in fs.tree <==> Alive(start, deadlines, clock, n)
        {
          SweepSurvivors(start, deadlines, clock, n);
        }
      }
    }
  }
}
