/** The folder hierarchy kept in flat buckets, edited by short transactions. */
module FileSys {
  import opened Forest
  import opened Buckets
  import opened Cuts
  import opened Pruning
  import Paths

  /** A stop right after any of these transactions leaves a tree behind. */
  ghost predicate AllWellFormed(log: seq<Buckets>, home: NodeId) {
    forall i :: 0 <= i < |log| ==> WellFormed(log[i], home)
  }

  lemma LogGrows(log: seq<Buckets>, home: NodeId, b: Buckets, f: Forest)
    requires AllWellFormed(log, home) && IsTree(b, home, f)
    ensures AllWellFormed(log + [b], home)
  {
  }

  /** Which of a creation's two transactions commit. */
  datatype Commits = Commits(name: bool, tree: bool)

  class FileSystem {
    const home: NodeId
    var tree: map<NodeId, seq<NodeId>>
    var names: map<NodeId, string>
    var sats: map<NodeId, string>

    /** The tree the buckets stand for. */
    ghost var root: Forest
    /** The bucket state after every transaction so far: where a stop can leave the device. */
    ghost var committed: seq<Buckets>

    ghost function Now(): Buckets
      reads this
    {
      Buckets(tree, names, sats)
    }

    ghost predicate Valid()
      reads this
    {
      && IsTree(Now(), home, root)
      && committed != [] && committed[|committed| - 1] == Now()
      && AllWellFormed(committed, home)
    }

    ghost predicate Fresh(node: NodeId)
      reads this
    {
      node != home && node !in tree && node !in names && node !in sats
    }

    /** Opens a bucket file, which may be new or left behind by a stop, and sets up the home folder. */
    constructor Open(home: NodeId, stored: Buckets)
      requires (home in stored.tree || home in stored.names) ==> WellFormed(stored, home)
      ensures Valid() && this.home == home && home in names && names[home] == "home"
      ensures WellFormed(stored, home) ==> Now() == stored && IsTree(stored, home, root)
      ensures !WellFormed(stored, home) ==>
                && root == Nil
                && Now() == Buckets(stored.tree[home := [home]], stored.names[home := HOME_NAME], stored.sats)
    {
      this.home := home;
      tree := if home in stored.tree then stored.tree else stored.tree[home := [home]];
      names := if home in stored.names then stored.names else stored.names[home := HOME_NAME];
      sats := stored.sats;
      new;
      if WellFormed(stored, home) {
        ghost var f :| IsTree(stored, home, f);
        root := f;
      } else {
        root := Nil;
        assert [home] + Heads(Nil) == [home];
      }
      committed := [Now()];
      assert IsTree(Now(), home, root);
    }

    /** A transaction that leaves the entries of every folder of the tree alone. */
    ghost method Commit(before: Buckets)
      requires IsTree(before, home, root) && Agree(before, Now(), Ids(root) + {home})
      requires AllWellFormed(committed, home)
      modifies this`committed
      ensures Valid() && old(committed) <= committed
    {
      TreeFrame(before, Now(), home, root);
      LogGrows(committed, home, Now(), root);
      committed := committed + [Now()];
    }

    /** The nodes are no part of the tree. */
    ghost predicate Apart(nodes: set<NodeId>)
      reads this
    {
      Valid() && nodes !! Ids(root) + {home}
    }

    /** A transaction on detached nodes; where they are not detached nothing is claimed of the state it leaves. */
    ghost method Record(before: Buckets, apart: bool)
      requires apart ==> IsTree(before, home, root) && Agree(before, Now(), Ids(root) + {home})
      requires apart ==> AllWellFormed(committed, home)
      modifies this`committed
      ensures (apart ==> Valid()) && old(committed) <= committed
    {
      if apart {
        Commit(before);
      } else {
        committed := committed + [Now()];
      }
    }

    /** A transaction that edits the tree. */
    ghost method CommitTree(edited: Forest)
      requires IsTree(Now(), home, edited)
      requires AllWellFormed(committed, home)
      modifies this`committed, this`root
      ensures Valid() && root == edited && old(committed) <= committed
    {
      LogGrows(committed, home, Now(), edited);
      root := edited;
      committed := committed + [Now()];
    }

    // ----- Lookup -----

    /** Walks the hierarchy from home, scanning each folder's child list for the next name. */
    method GetNodeForPath(hierarchy: seq<string>) returns (node: Option<NodeId>)
      ensures Valid() ==> node == ResolveId(home, root, hierarchy)
    {
      var here := home;
      ghost var below := root;
      assert hierarchy[0..] == hierarchy;
      assert Valid() ==> tree[home][1..] == Heads(root);
      for j := 0 to |hierarchy|
        invariant Valid() ==>
          && here in tree && |tree[here]| > 0 && tree[here][1..] == Heads(below)
          && Rep(Now(), here, below)
          && Resolve(here, below, hierarchy[j..]) == Resolve(home, root, hierarchy)
      {
        if here !in tree {
          return None;
        }
        var children := tree[here];
        var found := false;
        ghost var later := below;
        var i := 1; // entry 0 is the parent
        while i < |children| && !found
          invariant 1 <= i
          invariant !found ==> here in tree && children == tree[here]
          invariant Valid() && !found ==>
            && i <= |children| && children[i..] == Heads(later)
            && Rep(Now(), here, later)
            && Resolve(here, later, hierarchy[j..]) == Resolve(home, root, hierarchy)
          invariant Valid() && found ==>
            && here in tree && |tree[here]| > 0 && tree[here][1..] == Heads(below)
            && Rep(Now(), here, below)
            && Resolve(here, below, hierarchy[j + 1..]) == Resolve(home, root, hierarchy)
          decreases |children| - i, !found
        {
          if children[i] !in names {
            return None;
          }
          ghost var valid := Valid();
          assert valid ==> later.Cons? && children[i] == Heads(later)[0] == later.id;
          assert valid ==> names[later.id] == later.name;
          assert hierarchy[j..][0] == hierarchy[j] && hierarchy[j..][1..] == hierarchy[j + 1..];
          if names[children[i]] == hierarchy[j] {
            here := children[i];
            found := true;
            if valid {
              below := later.kids;
              assert tree[here][1..] == Heads(below);
            }
          } else {
            i := i + 1;
            if valid {
              assert Heads(later)[1..] == Heads(later.rest);
              later := later.rest;
            }
          }
        }
        if !found {
          return None;
        }
      }
      return Some(here);
    }

    /** The names of a folder's children, in order. */
    method GetChildrenNames(parent: NodeId) returns (result: Option<seq<string>>)
      ensures result.Some? <==>
              parent in tree && forall i :: 1 <= i < |tree[parent]| ==> tree[parent][i] in names
      ensures result.Some? ==>
              && |result.value| == (if tree[parent] == [] then 0 else |tree[parent]| - 1)
              && forall i :: 0 <= i < |result.value| ==> result.value[i] == names[tree[parent][i + 1]]
    {
      if parent !in tree {
        return None;
      }
      var children := tree[parent];
      var answer: seq<string> := [];
      var i := 1;
      while i < |children|
        invariant 1 <= i && (i <= |children| || children == [])
        invariant |answer| == i - 1 && (children == [] ==> i == 1)
        invariant forall k :: 1 <= k < i && k < |children| ==>
                    children[k] in names && answer[k - 1] == names[children[k]]
      {
        if children[i] !in names {
          return None;
        }
        answer := answer + [names[children[i]]];
        i := i + 1;
      }
      return Some(answer);
    }

    // ----- Creation -----

    /** Stores a node under its parent and lists it there, in one transaction; an unknown parent rolls it back. */
    method InsertNode(node: NodeId, parent: NodeId, commits: bool, ghost path: seq<string>) returns (ok: bool)
      requires Valid()
      requires parent in tree ==>
        && path != [] && Resolve(home, root, Parent(path)).Some?
        && Resolve(home, root, Parent(path)).value.id == parent
        && Last(path) !in HeadNames(Resolve(home, root, Parent(path)).value.kids)
        && node !in tree && node in names && names[node] == Last(path)
      requires parent !in tree ==> node != parent
      modifies this`tree, this`root, this`committed
      ensures Valid() && old(committed) <= committed
      ensures ok <==> parent in old(tree) && commits
      ensures ok ==> tree == old(tree)[node := [parent]][parent := old(tree)[parent] + [node]]
                     && root == Insert(old(root), path, node)
      ensures !ok ==> tree == old(tree) && root == old(root)
    {
      var tx := tree[node := [parent]];
      if parent !in tx || !commits {
        return false;
      }
      tx := tx[parent := tx[parent] + [node]];
      TreeInsert(Now(), Buckets(tx, names, sats), home, root, path, node);
      tree := tx;
      CommitTree(Insert(root, path, node));
      return true;
    }

    /** What the two transactions of a creation leave: all of it, the new name alone, or nothing. */
    ghost predicate Added(before: Buckets, root0: Forest, hierarchy: seq<string>, node: NodeId, up: NodeId,
                          commits: Commits)
      requires hierarchy != [] && Resolve(home, root0, Parent(hierarchy)).Some? && up in before.tree
      requires Last(hierarchy) !in HeadNames(Resolve(home, root0, Parent(hierarchy)).value.kids)
      reads this
    {
      && names == (if commits.name then before.names[node := Last(hierarchy)] else before.names)
      && (if commits.name && commits.tree then
            && root == Insert(root0, hierarchy, node)
            && tree == before.tree[node := [up]][up := before.tree[up] + [node]]
          else root == root0 && tree == before.tree)
    }

    /** The transactions of both folder-creating operations: name first, then the tree. */
    method AddFolder(hierarchy: seq<string>, node: NodeId, parent: NodeId, commits: Commits) returns (ok: bool)
      requires Valid() && Fresh(node) && hierarchy != []
      requires Resolve(home, root, Parent(hierarchy)).Some?
      requires parent == Resolve(home, root, Parent(hierarchy)).value.id
      requires Last(hierarchy) !in HeadNames(Resolve(home, root, Parent(hierarchy)).value.kids)
      modifies this`tree, this`names, this`root, this`committed
      ensures Valid() && old(committed) <= committed
      ensures parent in old(tree) && Added(old(Now()), old(root), hierarchy, node, parent, commits)
      ensures ok <==> commits.name && commits.tree
    {
      ghost var before := Now();
      RepKeys(before, home, root);
      ResolvedIsStored(before, home, root, Parent(hierarchy));
      if !commits.name {
        return false;
      }
      names := names[node := Last(hierarchy)];
      Commit(before);
      ok := InsertNode(node, parent, commits.tree, hierarchy);
    }

    /** Whether a new folder may be created: its parent's node, unless there is none or the name is taken. */
    method ParentForNew(hierarchy: seq<string>) returns (parent: Option<NodeId>)
      requires hierarchy != []
      ensures Valid() ==>
        match Resolve(home, root, Parent(hierarchy))
        case None => parent.None?
        case Some(up) => parent == if Last(hierarchy) in HeadNames(up.kids) then None else Some(up.id)
    {
      var p := GetNodeForPath(hierarchy[..|hierarchy| - 1]);
      if p.None? {
        return None;
      }
      var current := GetChildrenNames(p.value);
      if Valid() {
        ResolvedIsStored(Now(), home, root, Parent(hierarchy));
        ghost var up := Resolve(home, root, Parent(hierarchy)).value;
        NamesAsStored(Now(), up.id, up.kids);
        assert forall i :: 1 <= i < |tree[up.id]| ==> tree[up.id][i] == Heads(up.kids)[i - 1];
        assert current.value == HeadNames(up.kids);
      }
      if current.None? || Last(hierarchy) in current.value {
        return None;
      }
      return p;
    }

    /** `node` is the fresh identifier drawn, `commits` says which transactions commit, and `madeDir` whether the real
        directory could be made. */
    method CreateFolder(hierarchy: seq<string>, node: NodeId, commits: Commits, madeDir: bool)
      returns (result: Option<NodeId>)
      requires Valid() && Fresh(node) && hierarchy != []
      modifies this
      ensures Valid() && old(committed) <= committed && sats == old(sats)
      ensures match Resolve(home, old(root), Parent(hierarchy))
              case None => result.None? && Now() == old(Now()) && root == old(root)
              case Some(up) =>
                if Last(hierarchy) in HeadNames(up.kids) then
                  result.None? && Now() == old(Now()) && root == old(root)
                else
                  && up.id in old(tree) && Added(old(Now()), old(root), hierarchy, node, up.id, commits)
                  && result == if commits.name && commits.tree && madeDir then Some(node) else None
    {
      var parent := ParentForNew(hierarchy);
      if parent.None? {
        return None;
      }
      var ok := AddFolder(hierarchy, node, parent.value, commits);
      return if ok && madeDir then Some(node) else None;
    }

    /** As CreateFolder, but the directory is made and filled before the buckets change, and the folder may be marked
        as lying on the satellite storage; `marks` says whether that last transaction commits. */
    method CreateDownloadNewFolder(hierarchy: seq<string>, node: NodeId, madeDir: bool, downloaded: bool,
                                   commits: Commits, isSatellite: bool, satellitePath: string, marks: bool)
      returns (ok: bool)
      requires Valid() && Fresh(node) && hierarchy != []
      modifies this
      ensures Valid() && old(committed) <= committed
      ensures var up := Resolve(home, old(root), Parent(hierarchy));
        if up.Some? && Last(hierarchy) !in HeadNames(up.value.kids) && madeDir && downloaded then
          var added := commits.name && commits.tree;
          && up.value.id in old(tree) && Added(old(Now()), old(root), hierarchy, node, up.value.id, commits)
          && sats == (if added && isSatellite && marks then old(sats)[node := satellitePath] else old(sats))
          && (ok <==> added && (!isSatellite || marks))
        else !ok && Now() == old(Now()) && root == old(root)
    {
      var parent := ParentForNew(hierarchy);
      if parent.None? || !madeDir || !downloaded {
        return false;
      }
      ok := AddFolder(hierarchy, node, parent.value, commits);
      if ok && isSatellite {
        if !marks {
          return false;
        }
        ghost var before := Now();
        sats := sats[node := satellitePath];
        Commit(before);
      }
    }

    // ----- Deletion -----

    /** One transaction deleting a node's key from the tree bucket. */
    method DeleteFromTree(node: NodeId)
      modifies this`tree, this`committed
      ensures tree == old(tree) - {node} && old(committed) <= committed
      ensures old(Apart({node})) ==> Valid()
    {
      ghost var before, apart := Now(), Apart({node});
      if apart {
        EraseAgrees(before, {node}, Ids(root) + {home});
      }
      tree := tree - {node};
      Record(before, apart);
    }

    method DeleteFromNames(node: NodeId)
      modifies this`names, this`committed
      ensures names == old(names) - {node} && old(committed) <= committed
      ensures old(Apart({node})) ==> Valid()
    {
      ghost var before, apart := Now(), Apart({node});
      if apart {
        EraseAgrees(before, {node}, Ids(root) + {home});
      }
      names := names - {node};
      Record(before, apart);
    }

    method DeleteFromSats(node: NodeId)
      modifies this`sats, this`committed
      ensures sats == old(sats) - {node} && old(committed) <= committed
      ensures old(Apart({node})) ==> Valid()
    {
      ghost var before, apart := Now(), Apart({node});
      if apart {
        EraseAgrees(before, {node}, Ids(root) + {home});
      }
      if node in sats {
        sats := sats - {node};
        Record(before, apart);
      } else {
        assert sats - {node} == sats;
      }
    }

    /** Removes one node's own entries, a transaction per bucket. */
    method DeleteEntries(node: NodeId)
      modifies this`tree, this`names, this`sats, this`committed
      ensures old(Apart({node})) ==> Valid()
      ensures Now() == Erase(old(Now()), {node}) && old(committed) <= committed
    {
      DeleteFromTree(node);
      DeleteFromNames(node);
      DeleteFromSats(node);
    }

    /** Removes a folder's entries and those of everything below it, children first. `stuck` are the folders whose real
        directories cannot be removed. If the folder is detached the tree is untouched throughout. */
    method DeleteNodeSubtree(node: NodeId, stuck: set<NodeId>, ghost kids: Forest) returns (ok: bool)
      requires Stored(Now(), Spot(node, kids))
      modifies this`tree, this`names, this`sats, this`committed
      ensures old(Apart({node} + Ids(kids))) ==> Valid()
      ensures Now() == Erase(old(Now()), {node} + Ids(kids)) && old(committed) <= committed
      ensures ok <==> node !in stuck
      decreases Size(kids), 1
    {
      ghost var start := Now();
      DeletingStarts(start, node, kids);
      DeleteChildren(node, tree[node], stuck, start, kids);
      DeleteEntries(node);
      EraseTwice(start, Ids(kids), {node});
      assert Ids(kids) + {node} == {node} + Ids(kids);
      return node !in stuck;
    }

    /** The loop over the children. */
    method DeleteChildren(node: NodeId, children: seq<NodeId>, stuck: set<NodeId>, ghost start: Buckets,
                          ghost kids: Forest)
      requires children != [] && children[1..] == Heads(kids)
      requires start == Now() && Deleting(start, start, node, kids, {}, kids)
      modifies this`tree, this`names, this`sats, this`committed
      ensures old(Apart({node} + Ids(kids))) ==> Apart({node})
      ensures Now() == Erase(start, Ids(kids)) && old(committed) <= committed
      decreases Size(kids), 0
    {
      ghost var rest, apart := kids, Apart({node} + Ids(kids));
      ghost var done: set<NodeId> := {};
      var i := 1; // entry 0 is the parent
      while i < |children|
        invariant 1 <= i <= |children| && children[i..] == Heads(rest)
        invariant (apart ==> Valid()) && old(committed) <= committed
        invariant Deleting(start, Now(), node, kids, done, rest)
      {
        assert Heads(rest)[0] == children[i] && Heads(rest)[1..] == Heads(rest.rest);
        ghost var before := Now();
        DeletingNext(start, before, node, kids, done, rest);
        assert apart ==> Apart({rest.id} + Ids(rest.kids));
        var _ := DeleteNodeSubtree(children[i], stuck, rest.kids);
        DeletingStep(start, before, Now(), node, kids, done, rest);
        done, rest := done + ({rest.id} + Ids(rest.kids)), rest.rest;
        i := i + 1;
      }
      DeletingEnds(start, Now(), node, kids, done, rest);
    }

    /** The transaction that takes a folder out of its parent's list; if it does not commit, nothing has changed. */
    method UnlinkFolder(node: NodeId, commits: bool, ghost hierarchy: seq<string>)
      requires Valid() && hierarchy != [] && Resolve(home, root, hierarchy).Some?
      requires node == Resolve(home, root, hierarchy).value.id
      modifies this`tree, this`root, this`committed
      ensures Valid() && old(committed) <= committed
      ensures commits ==> root == Drop(old(root), hierarchy) && Now() == Unlink(old(Now()), node)
      ensures !commits ==> root == old(root) && Now() == old(Now())
    {
      ghost var before := Now();
      ResolvedIsStored(before, home, root, hierarchy);
      StoredParent(before, home, root, hierarchy);
      ResolvedIsStored(before, home, root, Parent(hierarchy));
      var parent := tree[node][0];
      var kept := ListWithout(tree[parent], node);
      if !commits {
        return;
      }
      tree := tree[parent := kept];
      TreeDrop(before, Now(), home, root, hierarchy);
      CommitTree(Drop(root, hierarchy));
    }

    /** Takes a folder out of its parent's list, then removes its real directory and its subtree's entries. `unlinks`
        says whether the first transaction commits. If it does not, the error is noticed only for a folder on the
        satellite storage; the deletion otherwise goes on and leaves no tree behind, unless the directory cannot be
        removed. */
    method DeleteFolder(hierarchy: seq<string>, stuck: set<NodeId>, unlinks: bool) returns (ok: bool)
      requires Valid() && hierarchy != []
      modifies this
      ensures old(committed) <= committed
      ensures match Resolve(home, old(root), hierarchy)
              case None => !ok && Valid() && Now() == old(Now()) && root == old(root)
              case Some(spot) =>
                if unlinks then
                  && Valid() && root == Drop(old(root), hierarchy)
                  && (ok <==> spot.id !in stuck)
                  && Now() == if ok then Erase(Unlink(old(Now()), spot.id), {spot.id} + Ids(spot.kids))
                              else Unlink(old(Now()), spot.id)
                else
                  && (ok <==> spot.id !in old(sats) && spot.id !in stuck)
                  && (WellFormed(Now(), home) <==> spot.id in old(sats) || spot.id in stuck)
                  && Now() == (if ok then Erase(old(Now()), {spot.id} + Ids(spot.kids)) else old(Now()))
                  && (!ok ==> Valid() && root == old(root))
    {
      var node := GetNodeForPath(hierarchy);
      if node.None? {
        return false;
      }
      ghost var before, first := Now(), root;
      ghost var spot := Resolve(home, root, hierarchy).value;
      ResolvedIsStored(before, home, first, hierarchy);
      UnlinkFolder(node.value, unlinks, hierarchy);
      if !unlinks && node.value in sats {
        return false;
      }
      if node.value in stuck {
        return false;
      }
      if unlinks {
        UnlinkedSubtree(before, Now(), home, first, hierarchy);
      } else {
        DeletionNeedsTheUnlink(before, home, first, hierarchy);
      }
      ok := DeleteNodeSubtree(node.value, stuck, spot.kids);
    }

    /** Deletes a folder, then each ancestor that this leaves without children, bottom up. It fails exactly when the
        directory of a folder that has to go cannot be removed, and then stops right after unlinking that folder. */
    method RecursiveDeleteFolder(hierarchy: seq<string>, stuck: set<NodeId>) returns (ok: bool)
      requires Valid() && hierarchy != []
      modifies this
      ensures Valid() && old(committed) <= committed
      ensures Resolve(home, old(root), hierarchy).None? ==> !ok && Now() == old(Now()) && root == old(root)
      ensures Resolve(home, old(root), hierarchy).Some? ==>
        && (ok <==> !Blocked(home, old(root), hierarchy, stuck))
        && (!ok ==> StoppedAtStuck(home, old(root), old(Now()), root, Now(), hierarchy, stuck))
        && Removed(home, old(root), old(Now()), root, Now(), hierarchy, stuck)
        && (ok <==> Removal(old(root), hierarchy, stuck).left == {})
      ensures ok ==> root == DropAndPrune(old(root), hierarchy) && Trimmed(old(Now()), old(root), Now(), root, home)
    {
      ghost var first, before := root, Now();
      if Resolve(home, root, hierarchy).Some? {
        DropFirst(home, first, before, hierarchy, stuck);
      }
      ok := DeleteFolder(hierarchy, stuck, true);
      if ok {
        ok := PruneUpward(hierarchy, stuck, first, before);
      }
    }

    /** The loop over the ancestors, innermost first. */
    method PruneUpward(hierarchy: seq<string>, stuck: set<NodeId>, ghost first: Forest, ghost before: Buckets)
      returns (ok: bool)
      requires Valid() && hierarchy != []
      requires PruningAt(home, first, before, root, Now(), hierarchy, |hierarchy| - 1, stuck)
      modifies this
      ensures Valid() && old(committed) <= committed
      ensures ok <==> !Blocked(home, first, hierarchy, stuck)
      ensures !ok ==> StoppedAtStuck(home, first, before, root, Now(), hierarchy, stuck)
      ensures Removed(home, first, before, root, Now(), hierarchy, stuck)
      ensures ok <==> Removal(first, hierarchy, stuck).left == {}
      ensures ok ==> root == DropAndPrune(first, hierarchy) && Trimmed(before, first, Now(), root, home)
    {
      var i := |hierarchy| - 1;
      var more := true;
      while i > 0 && more
        invariant 0 <= i < |hierarchy|
        invariant Valid() && old(committed) <= committed
        invariant PruningAt(home, first, before, root, Now(), hierarchy, i, stuck)
        invariant !more ==> Resolve(home, root, hierarchy[..i]).value.kids.Cons?
        decreases i, more
      {
        var next;
        next, ok := PruneFolder(hierarchy, i, stuck, first, before);
        if !ok {
          return;
        }
        more, i := next < i, next;
      }
      PruningEnds(home, first, before, root, Now(), hierarchy, i, stuck);
      return true;
    }

    /** One ancestor: deleted if it has no children left; `next` is how many names the folder to look at next has. */
    method PruneFolder(hierarchy: seq<string>, i: nat, stuck: set<NodeId>, ghost first: Forest, ghost before: Buckets)
      returns (next: nat, ok: bool)
      requires Valid() && 0 < i < |hierarchy| && PruningAt(home, first, before, root, Now(), hierarchy, i, stuck)
      modifies this
      ensures Valid() && old(committed) <= committed
      ensures !ok ==> HasStopped(home, first, before, root, Now(), hierarchy, stuck)
      ensures next == i - 1 || next == i
      ensures ok ==> PruningAt(home, first, before, root, Now(), hierarchy, next, stuck)
      ensures ok && next == i ==> Resolve(home, root, hierarchy[..i]).value.kids.Cons?
    {
      var path := hierarchy[..i];
      var leaf := IsLeafFolder(path);
      if !leaf {
        return i, true;
      }
      ghost var was, state, spot := root, Now(), Resolve(home, root, path).value;
      DropNext(home, first, before, was, state, hierarchy, i, stuck);
      ok := DeleteFolder(path, stuck, true);
      assert root == Drop(was, path) && Now() == if ok then Deleted(state, spot) else Unlink(state, spot.id);
      return i - 1, ok;
    }

    /** Whether an existing folder has no children. */
    method IsLeafFolder(path: seq<string>) returns (leaf: bool)
      requires Valid() && Resolve(home, root, path).Some?
      ensures leaf <==> Resolve(home, root, path).value.kids.Nil?
    {
      var node := GetNodeForPath(path);
      ResolvedIsStored(Now(), home, root, path);
      leaf := |tree[node.value]| == 1;
    }

    // ----- Listing the leaves -----

    /** Path strings of the leaves at or below a folder, children in stored order. */
    method PreOrderTraversal(node: NodeId, prefix: string, ghost kids: Forest) returns (paths: seq<string>)
      requires Stored(Now(), Spot(node, kids)) && node in names
      ensures paths == Listing(prefix + "/" + names[node], kids)
      decreases Size(kids)
    {
      var base := prefix + "/" + names[node];
      var children := tree[node];
      if |children| == 1 {
        assert Heads(kids) == [];
        return [base];
      }
      paths := [];
      ghost var rest, all := kids, Listing(base, kids);
      ListedStart(base, kids);
      var i := 1; // entry 0 is the parent
      while i < |children|
        invariant 1 <= i <= |children| && children[i..] == Heads(rest)
        invariant StoredBelow(Now(), node, rest) && Size(rest) <= Size(kids)
        invariant Listed(paths, base, rest, all)
      {
        assert Heads(rest)[0] == children[i] && Heads(rest)[1..] == Heads(rest.rest);
        NextChild(Now(), node, rest);
        var below := PreOrderTraversal(children[i], base, rest.kids);
        ListedNext(paths, base, rest, below, all);
        paths := paths + below;
        rest := rest.rest;
        i := i + 1;
      }
      ListedEnd(paths, base, rest, all);
    }

    /** The leaves below a path: for the empty path every leaf, without the home folder's name in front. */
    method GetLeavesList(actualPath: string) returns (leaves: Option<seq<string>>)
      requires Valid()
      ensures Paths.Trim(actualPath) == "" ==> leaves == Some(Strings("", Leaves(root, [])))
      ensures Paths.Trim(actualPath) != "" ==>
        var hierarchy := Paths.Hierarchy(actualPath);
        match Resolve(home, root, hierarchy)
        case None => leaves.None?
        case Some(spot) => leaves == Some(Listing("/" + Last(hierarchy), spot.kids))
    {
      if Paths.Trim(actualPath) == "" {
        ResolvedIsStored(Now(), home, root, []);
        var found := PreOrderTraversal(home, "", root);
        assert "" + "/" + HOME_NAME == "/" + HOME_NAME;
        ListingStrip("/" + HOME_NAME, root);
        var stripped := StripFront(found, |names[home]| + 1);
        assert stripped == Listing("", root);
        NonEmptyListing("", root);
        var kept := DropEmpty(stripped);
        return Some(kept);
      }
      var hierarchy := Paths.Hierarchy(actualPath);
      var start := GetNodeForPath(hierarchy);
      if start.None? {
        return None;
      }
      ghost var spot := Resolve(home, root, hierarchy).value;
      ResolvedIsStored(Now(), home, root, hierarchy);
      NameBelow(Now(), home, root, hierarchy);
      var found := PreOrderTraversal(start.value, "", spot.kids);
      assert "" + "/" + Last(hierarchy) == "/" + Last(hierarchy);
      NonEmptyListing("/" + Last(hierarchy), spot.kids);
      var kept := DropEmpty(found);
      return Some(kept);
    }
  }

  // ----- Leaf listings -----

  /** The listed leaves as strings: `base` followed by the path. */
  function Strings(base: string, leaves: seq<Found>): seq<string> {
    if leaves == [] then [] else [base + Paths.PathString(leaves[0].path)] + Strings(base, leaves[1..])
  }

  /** The paths of the leaves at or below a folder whose own path is `base`. */
  function Listing(base: string, kids: Forest): seq<string> {
    if kids.Nil? then [base] else Strings(base, Leaves(kids, []))
  }

  /** With the leaves below `rest` still to come, `paths` are those before. */
  ghost predicate Listed(paths: seq<string>, base: string, rest: Forest, all: seq<string>) {
    paths + Strings(base, Leaves(rest, [])) == all
  }

  lemma ListedStart(base: string, kids: Forest)
    ensures kids.Cons? ==> Listed([], base, kids, Listing(base, kids))
  {
  }

  lemma ListedEnd(paths: seq<string>, base: string, rest: Forest, all: seq<string>)
    requires Listed(paths, base, rest, all) && Heads(rest) == []
    ensures paths == all
  {
    assert rest == Nil && Leaves(rest, []) == [];
  }

  lemma ListedNext(paths: seq<string>, base: string, rest: Forest, below: seq<string>, all: seq<string>)
    requires rest.Cons? && Listed(paths, base, rest, all) && below == Listing(base + "/" + rest.name, rest.kids)
    ensures Listed(paths + below, base, rest.rest, all)
  {
    StringsOfFirst(rest, base);
    var later := Strings(base, Leaves(rest.rest, []));
    assert (paths + below) + later == paths + (below + later);
  }

  method StripFront(paths: seq<string>, n: nat) returns (stripped: seq<string>)
    requires forall i :: 0 <= i < |paths| ==> |paths[i]| >= n
    ensures |stripped| == |paths| && forall i :: 0 <= i < |paths| ==> stripped[i] == paths[i][n..]
  {
    stripped := [];
    for i := 0 to |paths|
      invariant |stripped| == i
      invariant forall k :: 0 <= k < i ==> stripped[k] == paths[k][n..]
    {
      stripped := stripped + [paths[i][n..]];
    }
  }

  method DropEmpty(paths: seq<string>) returns (kept: seq<string>)
    ensures kept == NonEmpty(paths)
  {
    kept := [];
    for i := 0 to |paths|
      invariant kept == NonEmpty(paths[..i])
    {
      assert paths[..i + 1][..i] == paths[..i];
      if |paths[i]| != 0 {
        kept := kept + [paths[i]];
      }
    }
    assert paths[..|paths|] == paths;
  }

  lemma {:induction false} StringsConcat(base: string, a: seq<Found>, b: seq<Found>)
    ensures Strings(base, a + b) == Strings(base, a) + Strings(base, b)
  {
    if a == [] {
      assert a + b == b;
    } else {
      assert (a + b)[1..] == a[1..] + b;
      StringsConcat(base, a[1..], b);
    }
  }

  lemma {:induction false} StringsAt(base: string, leaves: seq<Found>)
    ensures |Strings(base, leaves)| == |leaves|
    ensures forall i :: 0 <= i < |leaves| ==> Strings(base, leaves)[i] == base + Paths.PathString(leaves[i].path)
  {
    if leaves != [] {
      StringsAt(base, leaves[1..]);
    }
  }

  lemma {:induction false} StringsShift(f: Forest, base: string, prefix: seq<string>)
    ensures Strings(base, Leaves(f, prefix)) == Strings(base + Paths.PathString(prefix), Leaves(f, []))
    decreases f
  {
    if f.Cons? {
      var base' := base + Paths.PathString(prefix);
      var here, here' := prefix + [f.name], [] + [f.name];
      Paths.PathStringSnoc(prefix, f.name);
      Paths.PathStringSnoc([], f.name);
      assert base + Paths.PathString(here) == base' + Paths.PathString(here');
      var first := if f.kids.Nil? then [Found(f.id, here)] else Leaves(f.kids, here);
      var first' := if f.kids.Nil? then [Found(f.id, here')] else Leaves(f.kids, here');
      assert Strings(base, first) == Strings(base', first') by {
        if f.kids.Cons? {
          StringsShift(f.kids, base, here);
          StringsShift(f.kids, base', here');
        }
      }
      StringsShift(f.rest, base, prefix);
      StringsConcat(base, first, Leaves(f.rest, prefix));
      StringsConcat(base', first', Leaves(f.rest, []));
    }
  }

  lemma StringsOfFirst(f: Forest, base: string)
    requires f.Cons?
    ensures Strings(base, Leaves(f, [])) == Listing(base + "/" + f.name, f.kids) + Strings(base, Leaves(f.rest, []))
  {
    var here := [] + [f.name];
    Paths.PathStringSnoc([], f.name);
    assert Paths.PathString(here) == "/" + f.name;
    assert base + Paths.PathString(here) == base + "/" + f.name;
    var first := if f.kids.Nil? then [Found(f.id, here)] else Leaves(f.kids, here);
    StringsConcat(base, first, Leaves(f.rest, []));
    StringsShift(f.kids, base, here);
  }

  lemma ListingStrip(base: string, f: Forest)
    ensures |Listing(base, f)| == |Listing("", f)|
    ensures forall i :: 0 <= i < |Listing(base, f)| ==>
              base <= Listing(base, f)[i] && Listing(base, f)[i][|base|..] == Listing("", f)[i]
  {
    StringsAt(base, Leaves(f, []));
    StringsAt("", Leaves(f, []));
  }

  lemma NonEmptyListing(base: string, f: Forest)
    requires DistinctNames(f)
    ensures NonEmpty(Listing(base, f)) == if base == "" then Strings("", Leaves(f, [])) else Listing(base, f)
  {
    if f.Nil? {
      assert [base][..0] == [];
    } else {
      var leaves := Leaves(f, []);
      StringsAt(base, leaves);
      forall i | 0 <= i < |leaves|
        ensures Strings(base, leaves)[i] != ""
      {
        LeavesResolve(NodeId(""), f, [], i);
      }
      NonEmptyAll(Strings(base, leaves));
    }
  }

  function NonEmpty(paths: seq<string>): seq<string> {
    if paths == [] then []
    else NonEmpty(paths[..|paths| - 1]) + (if paths[|paths| - 1] != "" then [paths[|paths| - 1]] else [])
  }

  lemma {:induction false} NonEmptyAll(paths: seq<string>)
    ensures (forall i :: 0 <= i < |paths| ==> paths[i] != "") ==> NonEmpty(paths) == paths
  {
    if paths != [] {
      NonEmptyAll(paths[..|paths| - 1]);
    }
  }

  /** A folder's stored name is the last name of its path. */
  lemma {:induction false} NameBelow(b: Buckets, parent: NodeId, f: Forest, path: seq<string>)
    requires Rep(b, parent, f) && path != [] && Resolve(parent, f, path).Some?
    ensures var id := Resolve(parent, f, path).value.id; id in b.names && b.names[id] == Last(path)
    decreases f
  {
    if f.name == path[0] {
      if path[1..] != [] {
        NameBelow(b, f.id, f.kids, path[1..]);
      }
    } else {
      NameBelow(b, parent, f.rest, path);
    }
  }

  /** Splitting a listed string and resolving it gives back the leaf. */
  lemma ListedLeavesResolve(home: NodeId, f: Forest, i: nat)
    requires DistinctNames(f) && CleanNames(f) && i < |Leaves(f, [])|
    ensures |Strings("", Leaves(f, []))| == |Leaves(f, [])|
    ensures Resolve(home, f, Paths.Hierarchy(Strings("", Leaves(f, []))[i])) == Some(Spot(Leaves(f, [])[i].id, Nil))
  {
    var e := Leaves(f, [])[i];
    StringsAt("", Leaves(f, []));
    LeavesResolve(home, f, [], i);
    assert e.path[0..] == e.path;
    CleanPath(home, f, e.path);
    Paths.HierarchyOfPathString(e.path);
    assert "" + Paths.PathString(e.path) == Paths.PathString(e.path);
  }

  /** A child list with one node's entries skipped. */
  method ListWithout(children: seq<NodeId>, node: NodeId) returns (kept: seq<NodeId>)
    ensures kept == Without(children, node)
  {
    kept := [];
    var i := 0;
    while i < |children|
      invariant 0 <= i <= |children|
      invariant kept + Without(children[i..], node) == Without(children, node)
    {
      assert children[i..][0] == children[i] && children[i..][1..] == children[i + 1..];
      if children[i] != node {
        kept := kept + [children[i]];
      }
      i := i + 1;
    }
    assert children[i..] == [];
  }

  /** What hangs below an unlinked folder is still stored, apart from the tree. */
  lemma UnlinkedSubtree(b: Buckets, b': Buckets, home: NodeId, f: Forest, path: seq<string>)
    requires IsTree(b, home, f) && path != [] && Resolve(home, f, path).Some?
    requires b' == Unlink(b, Resolve(home, f, path).value.id)
    ensures var spot := Resolve(home, f, path).value;
            && Stored(b', spot)
            && Ids(Drop(f, path)) == Ids(f) - {spot.id} - Ids(spot.kids)
            && {spot.id} + Ids(spot.kids) <= Ids(f) && home !in Ids(f)
  {
    ResolvedIsStored(b, home, f, path);
    StoredParent(b, home, f, path);
    ResolvedIsStored(b, home, f, Parent(path));
    TreeDrop(b, b', home, f, path);
  }

  /** The buckets with a node taken out of its parent's list. */
  function Unlink(b: Buckets, node: NodeId): Buckets {
    if node in b.tree && b.tree[node] != [] && b.tree[node][0] in b.tree then
      b.(tree := b.tree[b.tree[node][0] := Without(b.tree[b.tree[node][0]], node)])
    else b
  }

  /** The buckets without the given nodes' entries. */
  function Erase(b: Buckets, gone: set<NodeId>): Buckets {
    Buckets(b.tree - gone, b.names - gone, b.sats - gone)
  }

  lemma EraseAgrees(b: Buckets, gone: set<NodeId>, nodes: set<NodeId>)
    requires gone !! nodes
    ensures Agree(b, Erase(b, gone), nodes)
    ensures Agree(b, b.(tree := b.tree - gone), nodes)
    ensures Agree(b, b.(names := b.names - gone), nodes)
    ensures Agree(b, b.(sats := b.sats - gone), nodes)
  {
  }

  lemma EraseTwice(b: Buckets, s: set<NodeId>, t: set<NodeId>)
    ensures Erase(Erase(b, s), t) == Erase(b, s + t)
  {
    assert (b.tree - s) - t == b.tree - (s + t);
    assert (b.names - s) - t == b.names - (s + t);
    assert (b.sats - s) - t == b.sats - (s + t);
  }

  ghost predicate StoredBelow(b: Buckets, node: NodeId, kids: Forest) {
    Rep(b, node, kids) && Distinct(kids) && DistinctNames(kids) && node !in Ids(kids)
  }

  /** Of the folders in `kids`, those in `done` have gone and those in `rest` are still there. */
  ghost predicate DeletedSoFar(kids: Forest, done: set<NodeId>, rest: Forest) {
    Ids(kids) == done + Ids(rest) && done !! Ids(rest)
  }

  lemma NextChild(b: Buckets, node: NodeId, kids: Forest)
    requires StoredBelow(b, node, kids) && kids.Cons?
    ensures Stored(b, Spot(kids.id, kids.kids)) && Size(kids.kids) < Size(kids) && Size(kids.rest) < Size(kids)
    ensures {kids.id} + Ids(kids.kids) <= Ids(kids)
  {
    assert b.tree[kids.id][1..] == Heads(kids.kids);
  }

  /** The walk over a detached folder's children: those before `rest` have been deleted with all below them. */
  ghost predicate Deleting(start: Buckets, now: Buckets, node: NodeId, kids: Forest, done: set<NodeId>, rest: Forest) {
    && StoredBelow(now, node, rest) && Size(rest) <= Size(kids)
    && DeletedSoFar(kids, done, rest)
    && now == Erase(start, done)
  }

  lemma DeletingStarts(b: Buckets, node: NodeId, kids: Forest)
    requires Stored(b, Spot(node, kids))
    ensures Deleting(b, b, node, kids, {}, kids)
  {
    assert b.tree - {} == b.tree && b.names - {} == b.names && b.sats - {} == b.sats;
  }

  lemma DeletingNext(start: Buckets, now: Buckets, node: NodeId, kids: Forest, done: set<NodeId>, rest: Forest)
    requires Deleting(start, now, node, kids, done, rest) && rest.Cons?
    ensures Stored(now, Spot(rest.id, rest.kids)) && Size(rest.kids) < Size(kids)
    ensures {rest.id} + Ids(rest.kids) <= Ids(kids)
  {
    NextChild(now, node, rest);
  }

  lemma DeletingEnds(start: Buckets, now: Buckets, node: NodeId, kids: Forest, done: set<NodeId>, rest: Forest)
    requires Deleting(start, now, node, kids, done, rest) && Heads(rest) == []
    ensures now == Erase(start, Ids(kids))
  {
    assert done == Ids(kids);
  }

  lemma DeletingStep(start: Buckets, before: Buckets, after: Buckets, node: NodeId, kids: Forest, done: set<NodeId>,
                     rest: Forest)
    requires Deleting(start, before, node, kids, done, rest) && rest.Cons?
    requires after == Erase(before, {rest.id} + Ids(rest.kids))
    ensures Deleting(start, after, node, kids, done + ({rest.id} + Ids(rest.kids)), rest.rest)
  {
    RepFrame(before, after, node, rest.rest);
    EraseTwice(start, done, {rest.id} + Ids(rest.kids));
  }

  /** The stored names of a folder's children are the names in the tree. */
  lemma {:induction false} NamesAsStored(b: Buckets, parent: NodeId, kids: Forest)
    requires Rep(b, parent, kids)
    ensures |HeadNames(kids)| == |Heads(kids)|
    ensures forall i :: 0 <= i < |Heads(kids)| ==>
              Heads(kids)[i] in b.names && HeadNames(kids)[i] == b.names[Heads(kids)[i]]
  {
    if kids.Cons? {
      NamesAsStored(b, parent, kids.rest);
    }
  }

  /** A completed deletion removes exactly the folders that left the tree. */
  lemma DeletionTrims(b: Buckets, home: NodeId, f: Forest, path: seq<string>)
    requires IsTree(b, home, f) && path != [] && Resolve(home, f, path).Some?
    ensures var spot := Resolve(home, f, path).value;
            Trimmed(b, f, Erase(Unlink(b, spot.id), {spot.id} + Ids(spot.kids)), Drop(f, path), home)
  {
    var spot := Resolve(home, f, path).value;
    UnlinkedSubtree(b, Unlink(b, spot.id), home, f, path);
    StoredParent(b, home, f, path);
    ResolvedIsStored(b, home, f, Parent(path));
    var up := Resolve(home, f, Parent(path)).value;
    ResolveSpot(up.id, up.kids, [Last(path)]);
    assert Ids(f) - Ids(Drop(f, path)) == {spot.id} + Ids(spot.kids);
  }

  /** Of a folder that was only unlinked, the entries remain. */
  lemma StuckTrims(b: Buckets, first: Forest, c: Buckets, home: NodeId, f: Forest, path: seq<string>)
    requires IsTree(c, home, f) && path != [] && Resolve(home, f, path).Some? && Trimmed(b, first, c, f, home)
    ensures var spot := Resolve(home, f, path).value;
            TrimmedBut(b, first, Unlink(c, spot.id), Drop(f, path), home, {spot.id} + Ids(spot.kids))
  {
    var spot := Resolve(home, f, path).value;
    var left := {spot.id} + Ids(spot.kids);
    UnlinkedSubtree(c, Unlink(c, spot.id), home, f, path);
    StoredParent(c, home, f, path);
    ResolvedIsStored(c, home, f, Parent(path));
    assert Ids(first) - Ids(Drop(f, path)) - left == Ids(first) - Ids(f);
  }

  // ----- Pruning upward -----

  /** What is left to do to reach `target` is to prune the folder `path` if it has become empty, and so on upward. */
  ghost predicate Pending(home: NodeId, f: Forest, path: seq<string>, target: Forest) {
    Resolve(home, f, path).Some? && Plug(f, path, Resolve(home, f, path).value.kids) == target
  }

  lemma PruneStart(home: NodeId, f: Forest, path: seq<string>)
    requires path != [] && Resolve(home, f, Parent(path)).Some?
    ensures Pending(home, Drop(f, path), Parent(path), DropAndPrune(f, path))
  {
    var left := RemoveName(KidsAt(f, Parent(path)), Last(path));
    SetKidsResolve(home, f, Parent(path), left);
    PlugSetKids(f, Parent(path), left, left);
  }

  /** Removing an emptied folder leaves its parent to be pruned in turn. */
  lemma PruneStep(home: NodeId, f: Forest, path: seq<string>, target: Forest)
    requires path != [] && Resolve(home, f, Parent(path)).Some?
    requires Pending(home, f, path, target) && Resolve(home, f, path).value.kids.Nil?
    ensures Pending(home, Drop(f, path), Parent(path), target)
  {
    PruneStart(home, f, path);
    PrunedEmpty(home, f, path);
  }

  lemma PrunedEmpty(home: NodeId, f: Forest, path: seq<string>)
    requires path != [] && Resolve(home, f, Parent(path)).Some?
    ensures DropAndPrune(f, path) == Plug(f, path, Nil)
  {
    assert path == Parent(path) + [Last(path)];
    ResolveKids(home, NodeId(""), f, Parent(path));
    PlugNil(home, f, Parent(path), Last(path));
  }

  predicate Free(node: Option<NodeId>, stuck: set<NodeId>) {
    node.Some? ==> node.value !in stuck
  }

  /** A folder on the path would have to go, and its directory cannot be removed. */
  ghost predicate Blocked(home: NodeId, f: Forest, path: seq<string>, stuck: set<NodeId>)
    requires path != []
  {
    exists j :: 1 <= j <= |path| && BlockedBy(home, f, path, stuck, ResolveId(home, f, path[..j]))
  }

  predicate BlockedBy(home: NodeId, f: Forest, path: seq<string>, stuck: set<NodeId>, node: Option<NodeId>)
    requires path != []
  {
    !Free(node, stuck) && node.value !in Ids(DropAndPrune(f, path))
  }

  /** The folder `path` and its ancestors dropped in turn, up to the one with `j` names. */
  function Chop(f: Forest, path: seq<string>, j: nat): Forest
    requires 1 <= j <= |path|
    decreases |path| - j
  {
    Drop(if j == |path| then f else Chop(f, path, j + 1), path[..j])
  }

  /** The deletion has stopped at the folder on the path with `j` names: the folders below it on the path are gone with
      exactly their entries, and it has just been unlinked, its own entries and directory still there. */
  ghost predicate StoppedAt(home: NodeId, f: Forest, b: Buckets, f': Forest, b': Buckets, path: seq<string>, j: nat)
    requires 1 <= j <= |path|
  {
    && f' == Chop(f, path, j) && ResolveId(home, f, path[..j]).Some?
    && exists c :: Trimmed(b, f, c, if j == |path| then f else Chop(f, path, j + 1), home)
                   && b' == Unlink(c, ResolveId(home, f, path[..j]).value)
  }

  /** The folder the deletion has stopped at is one whose directory cannot be removed. */
  ghost predicate StoppedAtStuck(home: NodeId, f: Forest, b: Buckets, f': Forest, b': Buckets, path: seq<string>,
                                 stuck: set<NodeId>) {
    exists j ::
      1 <= j <= |path| && StoppedAt(home, f, b, f', b', path, j) && !Free(ResolveId(home, f, path[..j]), stuck)
  }

  /** What a deletion with pruning leaves, tree and buckets. */
  ghost predicate Removed(home: NodeId, f: Forest, b: Buckets, f': Forest, b': Buckets, path: seq<string>,
                          stuck: set<NodeId>) {
    var cut := Removal(f, path, stuck);
    f' == cut.kids && TrimmedBut(b, f, b', f', home, cut.left)
  }

  /** The deletion has failed at a directory that cannot be removed. */
  ghost predicate HasStopped(home: NodeId, f: Forest, b: Buckets, f': Forest, b': Buckets, path: seq<string>,
                             stuck: set<NodeId>)
    requires path != []
  {
    && Blocked(home, f, path, stuck)
    && StoppedAtStuck(home, f, b, f', b', path, stuck)
    && Removed(home, f, b, f', b', path, stuck)
    && Removal(f, path, stuck).left != {}
  }

  /** The folders on the path with more than `i` names have been deleted; the others are in place. */
  ghost predicate PrunedTo(home: NodeId, first: Forest, f: Forest, path: seq<string>, i: nat, stuck: set<NodeId>)
    requires i < |path|
  {
    && f == Chop(first, path, i + 1)
    && Removal(first, path, stuck) == Pruned(f, path[..i], stuck)
    && Pending(home, f, path[..i], DropAndPrune(first, path))
    && (forall j :: 0 <= j <= i ==> ResolveId(home, f, path[..j]) == ResolveId(home, first, path[..j]))
    && (forall j :: i < j <= |path| ==> Free(ResolveId(home, first, path[..j]), stuck))
  }

  lemma {:induction false} PlugIds(f: Forest, path: seq<string>, g: Forest)
    ensures Ids(Plug(f, path, g)) <= Ids(f) + Ids(g)
    decreases f
  {
    if path != [] && f.Cons? {
      PlugIds(f.kids, path[1..], g);
      PlugIds(f.rest, path, g);
    }
  }

  /** Dropping a folder leaves its ancestors in place and takes it out for good. */
  lemma DroppedForGood(home: NodeId, f: Forest, path: seq<string>, target: Forest)
    requires path != [] && Distinct(f) && home !in Ids(f)
    requires Resolve(home, f, path).Some? && Resolve(home, f, Parent(path)).Some?
    requires Pending(home, Drop(f, path), Parent(path), target)
    ensures Resolve(home, f, path).value.id !in Ids(target)
    ensures forall j :: 0 <= j < |path| ==> ResolveId(home, Drop(f, path), path[..j]) == ResolveId(home, f, path[..j])
  {
    var up, id := Resolve(home, f, Parent(path)).value, Resolve(home, f, path).value.id;
    var left := RemoveName(up.kids, Last(path));
    ResolveKids(home, NodeId(""), f, Parent(path));
    assert path == Parent(path) + [Last(path)];
    ResolveConcat(home, f, Parent(path), [Last(path)]);
    ResolveSpot(home, f, Parent(path));
    RemoveNameIds(up.id, up.kids, Last(path));
    SetKidsIds(home, f, Parent(path), left);
    SetKidsResolve(home, f, Parent(path), left);
    PlugIds(Drop(f, path), Parent(path), left);
    forall j | 0 <= j < |path|
      ensures ResolveId(home, Drop(f, path), path[..j]) == ResolveId(home, f, path[..j])
    {
      SetKidsOtherPaths(home, f, Parent(path), left, path[..j]);
    }
  }

  lemma FirstDeletion(home: NodeId, f: Forest, b: Buckets, path: seq<string>, stuck: set<NodeId>)
    requires path != [] && Distinct(f) && home !in Ids(f)
    requires Resolve(home, f, path).Some? && Resolve(home, f, Parent(path)).Some?
    ensures Free(ResolveId(home, f, path), stuck) ==> PrunedTo(home, f, Drop(f, path), path, |path| - 1, stuck)
    ensures !Free(ResolveId(home, f, path), stuck) ==>
              && Blocked(home, f, path, stuck)
              && StoppedAtStuck(home, f, b, Drop(f, path), Unlink(b, Resolve(home, f, path).value.id), path, stuck)
  {
    PruneStart(home, f, path);
    RemovalStep(home, f, path, stuck);
    DroppedForGood(home, f, path, DropAndPrune(f, path));
    assert path[..|path|] == path && path[..|path| - 1] == Parent(path);
    assert Chop(f, path, |path|) == Drop(f, path);
    if !Free(ResolveId(home, f, path), stuck) {
      assert BlockedBy(home, f, path, stuck, ResolveId(home, f, path[..|path|]));
      NothingTrimmed(b, f, home);
      assert StoppedAt(home, f, b, Drop(f, path), Unlink(b, Resolve(home, f, path).value.id), path, |path|);
    }
  }

  lemma NothingTrimmed(b: Buckets, f: Forest, home: NodeId)
    ensures Trimmed(b, f, b, f, home)
  {
    assert b.names - {} == b.names && b.sats - {} == b.sats;
    assert Ids(f) - Ids(f) == {};
  }

  lemma NextDeletion(home: NodeId, first: Forest, b: Buckets, f: Forest, c: Buckets, path: seq<string>, i: nat,
                     stuck: set<NodeId>)
    requires 0 < i < |path| && Distinct(f) && home !in Ids(f)
    requires PrunedTo(home, first, f, path, i, stuck) && Resolve(home, f, path[..i]).value.kids.Nil?
    requires Resolve(home, f, Parent(path[..i])).Some? && Trimmed(b, first, c, f, home)
    ensures ResolveId(home, f, path[..i]) == ResolveId(home, first, path[..i])
    ensures Free(ResolveId(home, f, path[..i]), stuck) ==> PrunedTo(home, first, Drop(f, path[..i]), path, i - 1, stuck)
    ensures !Free(ResolveId(home, f, path[..i]), stuck) ==>
              && Blocked(home, first, path, stuck)
              && StoppedAtStuck(home, first, b, Drop(f, path[..i]), Unlink(c, Resolve(home, f, path[..i]).value.id),
                                path, stuck)
  {
    var here := path[..i];
    PruneStep(home, f, here, DropAndPrune(first, path));
    ResolveKids(home, NodeId(""), f, here);
    RemovalStep(home, f, here, stuck);
    DroppedForGood(home, f, here, DropAndPrune(first, path));
    assert Parent(here) == path[..i - 1];
    assert forall j :: 0 <= j < i ==> here[..j] == path[..j];
    assert Chop(first, path, i) == Drop(f, here);
    if !Free(ResolveId(home, f, here), stuck) {
      assert BlockedBy(home, first, path, stuck, ResolveId(home, first, here));
      assert StoppedAt(home, first, b, Drop(f, here), Unlink(c, Resolve(home, f, here).value.id), path, i);
    }
  }

  /** Where the upward pruning stands, tree and buckets. */
  ghost predicate PruningAt(home: NodeId, first: Forest, b: Buckets, f: Forest, c: Buckets, path: seq<string>, i: nat,
                            stuck: set<NodeId>)
    requires i < |path|
  {
    PrunedTo(home, first, f, path, i, stuck) && Trimmed(b, first, c, f, home)
  }

  /** The buckets after a folder has been unlinked and its subtree's entries removed. */
  function Deleted(b: Buckets, spot: Spot): Buckets {
    Erase(Unlink(b, spot.id), {spot.id} + Ids(spot.kids))
  }

  lemma DropFirst(home: NodeId, f: Forest, b: Buckets, path: seq<string>, stuck: set<NodeId>)
    requires IsTree(b, home, f) && path != [] && Resolve(home, f, path).Some?
    ensures var spot := Resolve(home, f, path).value;
            if spot.id in stuck then HasStopped(home, f, b, Drop(f, path), Unlink(b, spot.id), path, stuck)
            else PruningAt(home, f, b, Drop(f, path), Deleted(b, spot), path, |path| - 1, stuck)
  {
    StoredParent(b, home, f, path);
    FirstDeletion(home, f, b, path, stuck);
    DeletionTrims(b, home, f, path);
    if Resolve(home, f, path).value.id in stuck {
      NothingTrimmed(b, f, home);
      RemovalStep(home, f, path, stuck);
      StuckTrims(b, f, b, home, f, path);
    }
  }

  lemma DropNext(home: NodeId, first: Forest, b: Buckets, f: Forest, c: Buckets, path: seq<string>, i: nat,
                 stuck: set<NodeId>)
    requires 0 < i < |path| && IsTree(c, home, f) && PruningAt(home, first, b, f, c, path, i, stuck)
    requires Resolve(home, f, path[..i]).value.kids.Nil?
    ensures var spot := Resolve(home, f, path[..i]).value;
            if spot.id in stuck then
              HasStopped(home, first, b, Drop(f, path[..i]), Unlink(c, spot.id), path, stuck)
            else PruningAt(home, first, b, Drop(f, path[..i]), Deleted(c, spot), path, i - 1, stuck)
  {
    StoredParent(c, home, f, path[..i]);
    NextDeletion(home, first, b, f, c, path, i, stuck);
    DeletionTrims(c, home, f, path[..i]);
    var spot := Resolve(home, f, path[..i]).value;
    if spot.id in stuck {
      ResolveKids(home, NodeId(""), f, path[..i]);
      RemovalStep(home, f, path[..i], stuck);
      StuckTrims(b, first, c, home, f, path[..i]);
    } else {
      TrimmedTwice(b, first, c, f, Deleted(c, spot), Drop(f, path[..i]), home);
    }
  }

  lemma PruningEnds(home: NodeId, first: Forest, b: Buckets, f: Forest, c: Buckets, path: seq<string>, i: nat,
                    stuck: set<NodeId>)
    requires i < |path| && PruningAt(home, first, b, f, c, path, i, stuck)
    requires i > 0 ==> Resolve(home, f, path[..i]).value.kids.Cons?
    ensures f == DropAndPrune(first, path) && !Blocked(home, first, path, stuck)
    ensures Removed(home, first, b, f, c, path, stuck) && Removal(first, path, stuck).left == {}
  {
    PlugSame(home, f, path[..i]);
    PrunedStays(home, f, path[..i], stuck);
    TrimmedIsTrimmedBut(b, first, c, f, home);
    forall j | 1 <= j <= |path|
      ensures !BlockedBy(home, first, path, stuck, ResolveId(home, first, path[..j]))
    {
      if j <= i && ResolveId(home, first, path[..j]).Some? {
        ResolveSpot(home, f, path[..j]);
      }
    }
  }

  // ----- Where the invariant would be lost -----

  lemma {:induction false} ErasedFolderIsMissed(b: Buckets, here: NodeId, f: Forest, g: Forest, path: seq<string>,
                                                gone: set<NodeId>)
    requires Rep(b, here, f) && Rep(Erase(b, gone), here, g) && Heads(f) == Heads(g)
    requires path != [] && Resolve(here, f, path).Some? && Resolve(here, f, path).value.id in gone
    ensures false
    decreases f
  {
    assert Heads(f)[0] == f.id && Heads(f)[1..] == Heads(f.rest);
    assert g.Cons? && Heads(g)[0] == g.id && Heads(g)[1..] == Heads(g.rest);
    if f.name == path[0] {
      if path[1..] != [] {
        assert b.tree[f.id][1..] == Heads(f.kids) && b.tree[f.id][1..] == Heads(g.kids);
        ErasedFolderIsMissed(b, f.id, f.kids, g.kids, path[1..], gone);
      }
    } else {
      ErasedFolderIsMissed(b, here, f.rest, g.rest, path, gone);
    }
  }

  /** Were the unlinking transaction to fail and the deletion to go on, as it does for a folder that is not on the
      satellite storage, no tree would be left: the parent would keep listing a key that is gone. */
  lemma DeletionNeedsTheUnlink(b: Buckets, home: NodeId, f: Forest, path: seq<string>)
    requires IsTree(b, home, f) && path != [] && Resolve(home, f, path).Some?
    ensures var spot := Resolve(home, f, path).value;
            !WellFormed(Erase(b, {spot.id} + Ids(spot.kids)), home)
  {
    var spot := Resolve(home, f, path).value;
    var gone := {spot.id} + Ids(spot.kids);
    if WellFormed(Erase(b, gone), home) {
      var g :| IsTree(Erase(b, gone), home, g);
      assert b.tree[home][1..] == Heads(f) && b.tree[home][1..] == Heads(g);
      ErasedFolderIsMissed(b, home, f, g, path, gone);
    }
  }
}
