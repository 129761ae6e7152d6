/** Deletions that some real directories withstand: what they leave of a folder tree, and what they leave outside it. */
module Cuts {
  import opened Forest
  import opened Pruning

  /** What has become of a folder's children. `prune` says that none are left and the folder is to go as well; `left`
      are the folders that are out of the tree while their own entries are still there. */
  datatype Cut = Cut(kids: Forest, prune: bool, left: set<NodeId>)

  /** Sibling folders once the children of the first of them have become `k`. A first folder that has to go is deleted;
      if its directory cannot be removed, it is unlinked only and nothing further follows from it. */
  function First(c: Forest, k: Cut, stuck: set<NodeId>): Cut
    requires c.Cons?
  {
    if !k.prune then Cut(Cons(c.id, c.name, k.kids, c.rest), false, k.left)
    else if c.id in stuck then Cut(c.rest, false, k.left + {c.id} + Ids(k.kids))
    else Cut(c.rest, c.rest.Nil?, k.left)
  }

  /** The children of the folder at `path` have become `r`: the tree around it. */
  function Graft(f: Forest, path: seq<string>, r: Cut, stuck: set<NodeId>): Cut {
    if path == [] then r else
    match f
    case Nil => Cut(Nil, false, {})
    case Cons(id, name, kids, rest) =>
      if name == path[0] then First(f, Graft(kids, path[1..], r, stuck), stuck)
      else
        var k := Graft(rest, path, r, stuck);
        Cut(Cons(id, name, kids, k.kids), false, k.left)
  }

  /** The folder `path` deleted with pruning, as far as directories can be removed. */
  function Removal(f: Forest, path: seq<string>, stuck: set<NodeId>): Cut {
    Graft(f, path, Cut(KidsAt(f, path), true, {}), stuck)
  }

  /** The folder `path` pruned, and its ancestors, if it has no children. */
  function Pruned(f: Forest, path: seq<string>, stuck: set<NodeId>): Cut {
    Graft(f, path, Cut(KidsAt(f, path), KidsAt(f, path).Nil?, {}), stuck)
  }

  lemma {:induction false} GraftConcat(here: NodeId, f: Forest, p: seq<string>, q: seq<string>, r: Cut,
                                       stuck: set<NodeId>)
    requires Resolve(here, f, p).Some?
    ensures Graft(f, p + q, r, stuck) == Graft(f, p, Graft(Resolve(here, f, p).value.kids, q, r, stuck), stuck)
    decreases f
  {
    if p == [] {
      assert p + q == q;
    } else {
      assert (p + q)[0] == p[0] && (p + q)[1..] == p[1..] + q;
      if f.name == p[0] {
        GraftConcat(f.id, f.kids, p[1..], q, r, stuck);
      } else {
        GraftConcat(here, f.rest, p, q, r, stuck);
      }
    }
  }

  /** An edit that does not prune the folder is a plain replacement of its children. */
  lemma {:induction false} GraftPlain(here: NodeId, f: Forest, p: seq<string>, g: Forest, left: set<NodeId>,
                                      stuck: set<NodeId>)
    requires Resolve(here, f, p).Some?
    ensures Graft(f, p, Cut(g, false, left), stuck) == Cut(SetKids(f, p, g), false, left)
    decreases f
  {
    if p != [] {
      if f.name == p[0] {
        GraftPlain(f.id, f.kids, p[1..], g, left, stuck);
      } else {
        GraftPlain(here, f.rest, p, g, left, stuck);
      }
    }
  }

  lemma {:induction false} GraftSetKids(f: Forest, p: seq<string>, g: Forest, r: Cut, stuck: set<NodeId>)
    ensures Graft(SetKids(f, p, g), p, r, stuck) == Graft(f, p, r, stuck)
    decreases f
  {
    if p != [] && f.Cons? {
      if f.name == p[0] {
        GraftSetKids(f.kids, p[1..], g, r, stuck);
      } else {
        GraftSetKids(f.rest, p, g, r, stuck);
      }
    }
  }

  /** What was left outside the tree before stays there. */
  lemma {:induction false} GraftLeft(here: NodeId, f: Forest, p: seq<string>, r: Cut, left: set<NodeId>,
                                     stuck: set<NodeId>)
    requires Resolve(here, f, p).Some?
    ensures var k := Graft(f, p, r, stuck);
            Graft(f, p, r.(left := left + r.left), stuck) == k.(left := left + k.left)
    decreases f
  {
    if p != [] {
      if f.name == p[0] {
        GraftLeft(f.id, f.kids, p[1..], r, left, stuck);
        var k := Graft(f.kids, p[1..], r, stuck);
        assert left + k.left + {f.id} + Ids(k.kids) == left + (k.left + {f.id} + Ids(k.kids));
      } else {
        GraftLeft(here, f.rest, p, r, left, stuck);
      }
    }
  }

  lemma {:induction false} GraftShrinks(f: Forest, p: seq<string>, r: Cut, stuck: set<NodeId>)
    ensures Ids(Graft(f, p, r, stuck).kids) <= Ids(f) + Ids(r.kids)
    ensures CleanNames(f) && CleanNames(r.kids) ==> CleanNames(Graft(f, p, r, stuck).kids)
    decreases f
  {
    if p != [] && f.Cons? {
      if f.name == p[0] {
        GraftShrinks(f.kids, p[1..], r, stuck);
      } else {
        GraftShrinks(f.rest, p, r, stuck);
      }
    }
  }

  /** One folder taken from among its siblings. */
  lemma {:induction false} RemovalOne(here: NodeId, f: Forest, name: string, stuck: set<NodeId>)
    requires Resolve(here, f, [name]).Some?
    ensures var spot := Resolve(here, f, [name]).value; var g := RemoveName(f, name);
            Graft(f, [name], Cut(spot.kids, true, {}), stuck) ==
            if spot.id in stuck then Cut(g, false, {spot.id} + Ids(spot.kids)) else Cut(g, g.Nil?, {})
  {
    if f.name == name {
      assert [name][1..] == [];
      assert {} + {f.id} + Ids(f.kids) == {f.id} + Ids(f.kids);
    } else {
      RemovalOne(here, f.rest, name, stuck);
    }
  }

  /** Deleting a folder either stops right there or leaves its parent to be pruned. */
  lemma RemovalStep(here: NodeId, f: Forest, p: seq<string>, stuck: set<NodeId>)
    requires p != [] && Resolve(here, f, p).Some? && Resolve(here, f, Parent(p)).Some?
    ensures var spot := Resolve(here, f, p).value;
            if spot.id in stuck then Removal(f, p, stuck) == Cut(Drop(f, p), false, {spot.id} + Ids(spot.kids))
            else Removal(f, p, stuck) == Pruned(Drop(f, p), Parent(p), stuck)
  {
    var up, spot := Resolve(here, f, Parent(p)).value, Resolve(here, f, p).value;
    var g := RemoveName(up.kids, Last(p));
    ResolveKids(here, NodeId(""), f, p);
    ResolveKids(here, NodeId(""), f, Parent(p));
    assert p == Parent(p) + [Last(p)];
    ResolveConcat(here, f, Parent(p), [Last(p)]);
    GraftConcat(here, f, Parent(p), [Last(p)], Cut(spot.kids, true, {}), stuck);
    RemovalOne(up.id, up.kids, Last(p), stuck);
    GraftPlain(here, f, Parent(p), g, {spot.id} + Ids(spot.kids), stuck);
    GraftSetKids(f, Parent(p), g, Cut(g, g.Nil?, {}), stuck);
    SetKidsResolve(here, f, Parent(p), g);
    ResolveKids(here, NodeId(""), Drop(f, p), Parent(p));
  }

  /** A folder with children stays. */
  lemma PrunedStays(here: NodeId, f: Forest, p: seq<string>, stuck: set<NodeId>)
    requires Resolve(here, f, p).Some? && (p == [] || Resolve(here, f, p).value.kids.Cons?)
    ensures Pruned(f, p, stuck).kids == f && Pruned(f, p, stuck).left == {}
  {
    ResolveKids(here, NodeId(""), f, p);
    if p != [] {
      GraftPlain(here, f, p, KidsAt(f, p), {}, stuck);
      SetKidsSame(here, f, p);
    }
  }

  lemma {:induction false} SetKidsSame(here: NodeId, f: Forest, p: seq<string>)
    requires Resolve(here, f, p).Some?
    ensures SetKids(f, p, Resolve(here, f, p).value.kids) == f
    decreases f
  {
    if p != [] {
      if f.name == p[0] {
        SetKidsSame(f.id, f.kids, p[1..]);
      } else {
        SetKidsSame(here, f.rest, p);
      }
    }
  }

  // ----- The expiry sweep -----

  /** What a sweep makes of the children of the first of some sibling folders: an expired folder goes as it is. */
  function Below(c: Forest, deadlines: map<NodeId, int>, clock: Clock, stuck: set<NodeId>): Cut
    requires c.Cons?
    decreases c, 0
  {
    if Expired(deadlines, clock, c.id) then Cut(c.kids, true, {}) else SweepCut(c.kids, deadlines, clock, stuck)
  }

  /** The sweep of the siblings ends with the first of them: its deletion has failed, or there are no others. */
  predicate Ends(c: Forest, deadlines: map<NodeId, int>, clock: Clock, stuck: set<NodeId>)
    requires c.Cons?
  {
    c.rest.Nil? || (Expired(deadlines, clock, c.id) && c.id in stuck)
  }

  /** One sweep over sibling folders when the directories of the folders in `stuck` cannot be removed. */
  function SweepCut(f: Forest, deadlines: map<NodeId, int>, clock: Clock, stuck: set<NodeId>): Cut
    decreases f, 1
  {
    if f.Nil? || !Readable(deadlines, f.id) then Cut(f, false, {})
    else
      var k := Below(f, deadlines, clock, stuck);
      var here := First(f, k, stuck);
      if Ends(f, deadlines, clock, stuck) then here
      else
        var r := SweepCut(f.rest, deadlines, clock, stuck);
        if k.prune then Cut(r.kids, r.prune, here.left + r.left)
        else Cut(Cons(f.id, f.name, k.kids, r.kids), false, here.left + r.left)
  }

  /** Where every directory can be removed this is the plain sweep. */
  lemma {:induction false} SweepCutFree(f: Forest, deadlines: map<NodeId, int>, clock: Clock, stuck: set<NodeId>)
    requires stuck !! Ids(f)
    ensures SweepCut(f, deadlines, clock, stuck).kids == Sweep(f, deadlines, clock)
    ensures SweepCut(f, deadlines, clock, stuck).left == {}
    ensures SweepCut(f, deadlines, clock, stuck).prune <==> f.Cons? && Sweep(f, deadlines, clock).Nil?
    decreases f
  {
    if f.Cons? {
      SweepCutFree(f.kids, deadlines, clock, stuck);
      SweepCutFree(f.rest, deadlines, clock, stuck);
    }
  }

  /** Directories that cannot be removed lose nothing a plain sweep would keep. */
  lemma {:induction false} SweepCutKeeps(f: Forest, deadlines: map<NodeId, int>, clock: Clock, stuck: set<NodeId>)
    ensures Ids(Sweep(f, deadlines, clock)) <= Ids(SweepCut(f, deadlines, clock, stuck).kids) <= Ids(f)
    ensures CleanNames(f) ==> CleanNames(SweepCut(f, deadlines, clock, stuck).kids)
    ensures SweepCut(f, deadlines, clock, stuck).prune ==> SweepCut(f, deadlines, clock, stuck).kids.Nil?
    decreases f
  {
    SweepShrinks(f, deadlines, clock);
    if f.Cons? {
      SweepCutKeeps(f.kids, deadlines, clock, stuck);
      SweepCutKeeps(f.rest, deadlines, clock, stuck);
      SweepShrinks(f.rest, deadlines, clock);
      EmptyForest(Sweep(f.kids, deadlines, clock));
    }
  }

  lemma EmptyForest(f: Forest)
    ensures Ids(f) == {} <==> f.Nil?
  {
    assert f.Cons? ==> f.id in Ids(f);
  }

  /** Two sibling lists, the first a later state of the second: the sweep of one is the sweep of the other exactly if
      no folder has become a leaf. */
  ghost predicate CaughtUp(g: Forest, f: Forest, deadlines: map<NodeId, int>, clock: Clock) {
    && Ids(Sweep(f, deadlines, clock)) <= Ids(g) <= Ids(f)
    && (Sweep(g, deadlines, clock) == Sweep(f, deadlines, clock) <==> LeafIds(g) <= LeafIds(f))
  }

  lemma CaughtUpCons(f: Forest, k: Forest, r: Forest, deadlines: map<NodeId, int>, clock: Clock)
    requires Distinct(f) && f.Cons? && Readable(deadlines, f.id) && !Expired(deadlines, clock, f.id)
    requires CaughtUp(k, f.kids, deadlines, clock) && CaughtUp(r, f.rest, deadlines, clock)
    requires Ids(Sweep(f, deadlines, clock)) <= Ids(Cons(f.id, f.name, k, r))
    ensures CaughtUp(Cons(f.id, f.name, k, r), f, deadlines, clock)
  {
    LeavesAreFolders(f.kids);
    LeavesAreFolders(f.rest);
    LeavesAreFolders(k);
    LeavesAreFolders(r);
    SweepShrinks(f.rest, deadlines, clock);
    SweepShrinks(r, deadlines, clock);
    SweepShrinks(k, deadlines, clock);
    var g := Cons(f.id, f.name, k, r);
    var kept, now := Sweep(f.kids, deadlines, clock), Sweep(k, deadlines, clock);
    if k.Nil? {
      EmptyForest(kept);
      assert f.id in LeafIds(g);
      if f.kids.Cons? {
        assert f.id in Ids(Sweep(g, deadlines, clock)) && f.id !in Ids(Sweep(f, deadlines, clock));
      }
    } else {
      assert kept.Cons? ==> f.id in Ids(Sweep(f, deadlines, clock));
      assert now.Cons? ==> f.id in Ids(Sweep(g, deadlines, clock));
      assert LeafIds(g) <= LeafIds(f) <==> LeafIds(k) <= LeafIds(f.kids) && LeafIds(r) <= LeafIds(f.rest);
    }
  }

  /** Sweeping again, once every directory can be removed, leaves what a plain sweep would have left, if and only if
      the first sweep has turned no folder with children into a leaf: a folder left empty by a failed deletion is
      pruned by no later sweep. */
  lemma {:induction false} CatchesUpIff(f: Forest, deadlines: map<NodeId, int>, clock: Clock, stuck: set<NodeId>)
    requires Distinct(f)
    ensures var swept := SweepCut(f, deadlines, clock, stuck).kids;
            Sweep(swept, deadlines, clock) == Sweep(f, deadlines, clock) <==> LeafIds(swept) <= LeafIds(f)
    decreases f
  {
    if f.Cons? && Readable(deadlines, f.id) {
      SweepCutKeeps(f, deadlines, clock, stuck);
      SweepCutKeeps(f.kids, deadlines, clock, stuck);
      SweepCutKeeps(f.rest, deadlines, clock, stuck);
      CatchesUpIff(f.rest, deadlines, clock, stuck);
      var k, r := Below(f, deadlines, clock, stuck), SweepCut(f.rest, deadlines, clock, stuck).kids;
      if k.prune {
        EmptyForest(Sweep(f.kids, deadlines, clock));
        LeavesAreFolders(f.kids);
        LeavesAreFolders(f.rest);
        LeavesAreFolders(r);
      } else {
        CatchesUpIff(f.kids, deadlines, clock, stuck);
        CaughtUpCons(f, k.kids, r, deadlines, clock);
      }
    }
  }

  /** One such folder: its only child has expired, but the child's directory cannot be removed. */
  lemma LeftEmpty(a: NodeId, b: NodeId)
    requires a != b
    ensures var f := Cons(a, "a", Leaf(b, "b"), Nil);
            var deadlines := map[a := 1, b := 0];
            && Sweep(f, deadlines, AtOne) == Nil
            && SweepCut(f, deadlines, AtOne, {b}) == Cut(Leaf(a, "a"), false, {b})
            && Sweep(Leaf(a, "a"), deadlines, AtOne) == Leaf(a, "a")
  {
    var deadlines := map[a := 1, b := 0];
    assert SweepCut(Leaf(b, "b"), deadlines, AtOne, {b}) == Cut(Nil, false, {b});
  }
}
