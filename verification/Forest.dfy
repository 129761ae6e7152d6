/** The folder hierarchy as a finite rooted tree, and the edits the file system makes to it. */
module Forest {

  datatype Option<+T> = None | Some(value: T)

  datatype NodeId = NodeId(uuid: string)

  /** Sibling folders in order: `kids` hang below the first folder, `rest` are its later siblings. */
  datatype Forest = Nil | Cons(id: NodeId, name: string, kids: Forest, rest: Forest)

  /** A folder reached by a path (or the home folder): its node and what hangs below it. */
  datatype Spot = Spot(id: NodeId, kids: Forest)

  function Leaf(id: NodeId, name: string): Forest {
    Cons(id, name, Nil, Nil)
  }

  function Size(f: Forest): nat {
    match f
    case Nil => 0
    case Cons(_, _, kids, rest) => 1 + Size(kids) + Size(rest)
  }

  function Ids(f: Forest): set<NodeId> {
    match f
    case Nil => {}
    case Cons(id, _, kids, rest) => {id} + Ids(kids) + Ids(rest)
  }

  /** Every folder occurs once. */
  predicate Distinct(f: Forest) {
    match f
    case Nil => true
    case Cons(id, _, kids, rest) =>
      && id !in Ids(kids) && id !in Ids(rest) && Ids(kids) !! Ids(rest)
      && Distinct(kids) && Distinct(rest)
  }

  function Heads(f: Forest): seq<NodeId> {
    match f
    case Nil => []
    case Cons(id, _, _, rest) => [id] + Heads(rest)
  }

  function HeadNames(f: Forest): seq<string> {
    match f
    case Nil => []
    case Cons(_, name, _, rest) => [name] + HeadNames(rest)
  }

  /** Siblings have different names, at every level. */
  predicate DistinctNames(f: Forest) {
    match f
    case Nil => true
    case Cons(_, name, kids, rest) => name !in HeadNames(rest) && DistinctNames(kids) && DistinctNames(rest)
  }

  /** Every folder name satisfies the conventions under which path strings are unambiguous. */
  predicate CleanName(name: string) {
    name != "" && '/' !in name
  }

  predicate CleanNames(f: Forest) {
    match f
    case Nil => true
    case Cons(_, name, kids, rest) => CleanName(name) && CleanNames(kids) && CleanNames(rest)
  }

  function Append(f: Forest, g: Forest): Forest {
    match f
    case Nil => g
    case Cons(id, name, kids, rest) => Cons(id, name, kids, Append(rest, g))
  }

  /** The first folder called `name` taken out, with everything below it. */
  function RemoveName(f: Forest, name: string): Forest {
    match f
    case Nil => Nil
    case Cons(id, n, kids, rest) => if n == name then rest else Cons(id, n, kids, RemoveName(rest, name))
  }

  /** Name-by-name lookup of a path below the folder `here`, whose children are `f`. */
  function Resolve(here: NodeId, f: Forest, path: seq<string>): Option<Spot>
    decreases f
  {
    if path == [] then Some(Spot(here, f)) else
    match f
    case Nil => None
    case Cons(id, name, kids, rest) =>
      if name == path[0] then Resolve(id, kids, path[1..]) else Resolve(here, rest, path)
  }

  function ResolveId(here: NodeId, f: Forest, path: seq<string>): Option<NodeId> {
    match Resolve(here, f, path)
    case None => None
    case Some(spot) => Some(spot.id)
  }

  /** The children of the folder at `path` replaced by `g`; nothing changes if there is no such folder. */
  function SetKids(f: Forest, path: seq<string>, g: Forest): Forest {
    if path == [] then g else
    match f
    case Nil => Nil
    case Cons(id, name, kids, rest) =>
      if name == path[0] then Cons(id, name, SetKids(kids, path[1..], g), rest)
      else Cons(id, name, kids, SetKids(rest, path, g))
  }

  /** As SetKids, but a folder on the path that is left without children disappears as well. */
  function Plug(f: Forest, path: seq<string>, g: Forest): Forest {
    if path == [] then g else
    match f
    case Nil => Nil
    case Cons(id, name, kids, rest) =>
      if name == path[0] then
        var k := Plug(kids, path[1..], g);
        if k.Nil? then rest else Cons(id, name, k, rest)
      else Cons(id, name, kids, Plug(rest, path, g))
  }

  function Parent(path: seq<string>): seq<string>
    requires path != []
  {
    path[..|path| - 1]
  }

  function Last(path: seq<string>): string
    requires path != []
  {
    path[|path| - 1]
  }

  function KidsAt(f: Forest, path: seq<string>): Forest {
    match Resolve(NodeId(""), f, path)
    case None => Nil
    case Some(spot) => spot.kids
  }

  /** A new childless folder `path`, listed after its siblings. */
  function Insert(f: Forest, path: seq<string>, id: NodeId): Forest
    requires path != []
  {
    SetKids(f, Parent(path), Append(KidsAt(f, Parent(path)), Leaf(id, Last(path))))
  }

  /** The folder `path` and its subtree taken out. */
  function Drop(f: Forest, path: seq<string>): Forest
    requires path != []
  {
    SetKids(f, Parent(path), RemoveName(KidsAt(f, Parent(path)), Last(path)))
  }

  /** The folder `path` taken out together with every ancestor this leaves empty. */
  function DropAndPrune(f: Forest, path: seq<string>): Forest
    requires path != []
  {
    Plug(f, Parent(path), RemoveName(KidsAt(f, Parent(path)), Last(path)))
  }

  // ----- Lookup -----

  lemma {:induction false} ResolveKids(a: NodeId, b: NodeId, f: Forest, path: seq<string>)
    ensures Resolve(a, f, path).Some? == Resolve(b, f, path).Some?
    ensures Resolve(a, f, path).Some? ==> Resolve(a, f, path).value.kids == Resolve(b, f, path).value.kids
    ensures path != [] ==> Resolve(a, f, path) == Resolve(b, f, path)
  {
    if path != [] && f.Cons? && f.name != path[0] {
      ResolveKids(a, b, f.rest, path);
    }
  }

  lemma {:induction false} ResolveConcat(here: NodeId, f: Forest, p: seq<string>, q: seq<string>)
    ensures Resolve(here, f, p + q) ==
            (match Resolve(here, f, p)
             case None => None
             case Some(spot) => Resolve(spot.id, spot.kids, q))
    decreases f
  {
    if p == [] {
      assert p + q == q;
    } else {
      assert (p + q)[0] == p[0] && (p + q)[1..] == p[1..] + q;
      if f.Cons? {
        if f.name == p[0] {
          ResolveConcat(f.id, f.kids, p[1..], q);
        } else {
          ResolveConcat(here, f.rest, p, q);
        }
      }
    }
  }

  lemma {:induction false} ResolveSpot(here: NodeId, f: Forest, path: seq<string>)
    requires Resolve(here, f, path).Some?
    ensures var spot := Resolve(here, f, path).value;
            && Ids(spot.kids) <= Ids(f) && Size(spot.kids) <= Size(f)
            && (path != [] ==> spot.id in Ids(f))
            && (DistinctNames(f) ==> DistinctNames(spot.kids))
            && (CleanNames(f) ==> CleanNames(spot.kids))
            && (Distinct(f) ==> Distinct(spot.kids))
            && (Distinct(f) && here !in Ids(f) ==> spot.id !in Ids(spot.kids))
    decreases f
  {
    if path != [] {
      if f.name == path[0] {
        ResolveSpot(f.id, f.kids, path[1..]);
      } else {
        ResolveSpot(here, f.rest, path);
      }
    }
  }

  lemma {:induction false} CleanPath(here: NodeId, f: Forest, path: seq<string>)
    requires CleanNames(f) && Resolve(here, f, path).Some?
    ensures forall i :: 0 <= i < |path| ==> CleanName(path[i])
    decreases f
  {
    if path != [] {
      if f.name == path[0] {
        CleanPath(f.id, f.kids, path[1..]);
      } else {
        CleanPath(here, f.rest, path);
      }
    }
  }

  // ----- Replacing the children of a folder -----

  lemma {:induction false} SetKidsResolve(here: NodeId, f: Forest, path: seq<string>, g: Forest)
    requires Resolve(here, f, path).Some?
    ensures Resolve(here, SetKids(f, path, g), path) == Some(Spot(Resolve(here, f, path).value.id, g))
    ensures path != [] ==> Heads(SetKids(f, path, g)) == Heads(f)
    ensures path != [] ==> HeadNames(SetKids(f, path, g)) == HeadNames(f)
    decreases f
  {
    if path != [] {
      if f.name == path[0] {
        SetKidsResolve(f.id, f.kids, path[1..], g);
      } else {
        SetKidsResolve(here, f.rest, path, g);
      }
    }
  }

  lemma SwapInside(outer: set<NodeId>, inner: set<NodeId>, gone: set<NodeId>, added: set<NodeId>)
    requires outer !! inner && gone <= inner && added !! (outer + inner - gone)
    ensures outer + (inner - gone + added) == (outer + inner) - gone + added
    ensures added !! (inner - gone) && outer !! (inner - gone + added)
  {
  }

  /** Replacing one folder's children by a forest over allowed ids keeps ids unique, and swaps just the ids below it. */
  lemma {:induction false} SetKidsIds(here: NodeId, f: Forest, path: seq<string>, g: Forest)
    requires Resolve(here, f, path).Some?
    requires Distinct(f) && Distinct(g)
    requires Ids(g) !! (Ids(f) - Ids(Resolve(here, f, path).value.kids))
    ensures Ids(SetKids(f, path, g)) == Ids(f) - Ids(Resolve(here, f, path).value.kids) + Ids(g)
    ensures Distinct(SetKids(f, path, g))
    decreases f
  {
    if path != [] {
      if f.name == path[0] {
        ResolveSpot(f.id, f.kids, path[1..]);
        SetKidsIds(f.id, f.kids, path[1..], g);
        var gone := Ids(Resolve(here, f, path).value.kids);
        SwapInside({f.id} + Ids(f.rest), Ids(f.kids), gone, Ids(g));
        assert Ids(f) == {f.id} + Ids(f.rest) + Ids(f.kids);
      } else {
        ResolveSpot(here, f.rest, path);
        SetKidsIds(here, f.rest, path, g);
        var gone := Ids(Resolve(here, f, path).value.kids);
        SwapInside({f.id} + Ids(f.kids), Ids(f.rest), gone, Ids(g));
      }
    }
  }

  lemma {:induction false} SetKidsNames(here: NodeId, f: Forest, path: seq<string>, g: Forest)
    requires Resolve(here, f, path).Some?
    requires DistinctNames(f) && DistinctNames(g)
    ensures DistinctNames(SetKids(f, path, g))
    decreases f
  {
    if path != [] {
      SetKidsResolve(here, f, path, g);
      if f.name == path[0] {
        SetKidsNames(f.id, f.kids, path[1..], g);
      } else {
        SetKidsResolve(here, f.rest, path, g);
        SetKidsNames(here, f.rest, path, g);
      }
    }
  }

  // ----- Appending and removing one sibling -----

  lemma {:induction false} AppendFacts(f: Forest, g: Forest)
    ensures Ids(Append(f, g)) == Ids(f) + Ids(g)
    ensures Heads(Append(f, g)) == Heads(f) + Heads(g)
    ensures HeadNames(Append(f, g)) == HeadNames(f) + HeadNames(g)
    ensures Append(f, g).Nil? <==> f.Nil? && g.Nil?
    ensures Distinct(Append(f, g)) <==> Distinct(f) && Distinct(g) && Ids(f) !! Ids(g)
    ensures CleanNames(Append(f, g)) <==> CleanNames(f) && CleanNames(g)
    ensures DistinctNames(Append(f, g)) <==>
            DistinctNames(f) && DistinctNames(g) && forall n :: n in HeadNames(f) ==> n !in HeadNames(g)
  {
    if f.Cons? {
      AppendFacts(f.rest, g);
    }
  }

  lemma {:induction false} AppendAssoc(f: Forest, g: Forest, h: Forest)
    ensures Append(Append(f, g), h) == Append(f, Append(g, h))
  {
    if f.Cons? {
      AppendAssoc(f.rest, g, h);
    }
  }

  lemma {:induction false} AppendNil(f: Forest)
    ensures Append(f, Nil) == f
  {
    if f.Cons? {
      AppendNil(f.rest);
    }
  }

  /** A list of nodes without one of them, the others keeping their order. */
  function Without(nodes: seq<NodeId>, node: NodeId): seq<NodeId> {
    if nodes == [] then []
    else (if nodes[0] == node then [] else [nodes[0]]) + Without(nodes[1..], node)
  }

  lemma {:induction false} WithoutAbsent(nodes: seq<NodeId>, node: NodeId)
    requires node !in nodes
    ensures Without(nodes, node) == nodes
  {
    if nodes != [] {
      WithoutAbsent(nodes[1..], node);
    }
  }

  lemma {:induction false} HeadsAreIds(f: Forest)
    ensures forall x :: x in Heads(f) ==> x in Ids(f)
  {
    if f.Cons? {
      HeadsAreIds(f.rest);
    }
  }

  lemma {:induction false} RemoveNameHeads(here: NodeId, f: Forest, name: string)
    requires Resolve(here, f, [name]).Some? && Distinct(f)
    ensures var id := Resolve(here, f, [name]).value.id;
            id in Heads(f) && Heads(RemoveName(f, name)) == Without(Heads(f), id)
  {
    HeadsAreIds(f.rest);
    assert Heads(f)[1..] == Heads(f.rest);
    if f.name == name {
      WithoutAbsent(Heads(f.rest), f.id);
    } else {
      RemoveNameHeads(here, f.rest, name);
    }
  }

  lemma {:induction false} RemoveNameIds(here: NodeId, f: Forest, name: string)
    requires Resolve(here, f, [name]).Some? && Distinct(f)
    ensures var spot := Resolve(here, f, [name]).value;
            && spot.id !in Ids(spot.kids)
            && {spot.id} + Ids(spot.kids) <= Ids(f)
            && Ids(RemoveName(f, name)) == Ids(f) - {spot.id} - Ids(spot.kids)
    ensures Distinct(RemoveName(f, name))
  {
    if f.name == name {
      assert Resolve(here, f, [name]).value == Spot(f.id, f.kids);
    } else {
      RemoveNameIds(here, f.rest, name);
    }
  }

  lemma {:induction false} RemoveNameNames(f: Forest, name: string)
    requires DistinctNames(f)
    ensures DistinctNames(RemoveName(f, name))
    ensures forall n :: n in HeadNames(RemoveName(f, name)) <==> n in HeadNames(f) && n != name
  {
    if f.Cons? && f.name != name {
      RemoveNameNames(f.rest, name);
    }
  }

  // ----- Path resolution after an edit -----

  /** Editing one folder's children leaves every path that does not extend that folder alone. */
  lemma {:induction false} SetKidsOtherPaths(here: NodeId, f: Forest, path: seq<string>, g: Forest, q: seq<string>)
    requires Resolve(here, f, path).Some?
    requires !(path <= q) || path == q
    ensures ResolveId(here, SetKids(f, path, g), q) == ResolveId(here, f, q)
    decreases f
  {
    if path == [] {
      assert q == [];
    } else if q != [] && f.name == path[0] {
      if q[0] == path[0] {
        if path[1..] <= q[1..] {
          assert path == [path[0]] + path[1..] && q == [q[0]] + q[1..];
        }
        SetKidsOtherPaths(f.id, f.kids, path[1..], g, q[1..]);
      }
    } else if q != [] {
      if f.name != q[0] {
        SetKidsOtherPaths(here, f.rest, path, g, q);
      }
    }
  }

  lemma SetKidsBelow(here: NodeId, f: Forest, path: seq<string>, g: Forest, q: seq<string>)
    requires Resolve(here, f, path).Some?
    requires path <= q
    ensures var spot := Resolve(here, f, path).value;
            && ResolveId(here, f, q) == ResolveId(spot.id, spot.kids, q[|path|..])
            && ResolveId(here, SetKids(f, path, g), q) == ResolveId(spot.id, g, q[|path|..])
  {
    assert q == path + q[|path|..];
    ResolveConcat(here, f, path, q[|path|..]);
    SetKidsResolve(here, f, path, g);
    ResolveConcat(here, SetKids(f, path, g), path, q[|path|..]);
  }

  lemma {:induction false} ResolveAppendLeaf(here: NodeId, f: Forest, id: NodeId, name: string, q: seq<string>)
    requires name !in HeadNames(f)
    ensures ResolveId(here, Append(f, Leaf(id, name)), q) ==
            if q == [name] then Some(id) else ResolveId(here, f, q)
  {
    if q != [] {
      if f.Nil? {
        if q[0] == name {
          assert q == [name] + q[1..];
          assert Resolve(here, Leaf(id, name), q) == Resolve(id, Nil, q[1..]);
        } else {
          assert Resolve(here, Leaf(id, name), q) == Resolve(here, Nil, q);
        }
      } else if f.name != q[0] {
        ResolveAppendLeaf(here, f.rest, id, name, q);
      }
    }
  }

  lemma {:induction false} ResolveRemoveName(here: NodeId, f: Forest, name: string, q: seq<string>)
    requires DistinctNames(f)
    ensures ResolveId(here, RemoveName(f, name), q) ==
            if q != [] && q[0] == name then None else ResolveId(here, f, q)
  {
    if q != [] && f.Cons? {
      if f.name == name {
        if q[0] == name && Resolve(here, f.rest, q).Some? {
          ResolveHead(here, f.rest, q);
        }
      } else if f.name != q[0] {
        ResolveRemoveName(here, f.rest, name, q);
      }
    }
  }

  lemma {:induction false} ResolveHead(here: NodeId, f: Forest, q: seq<string>)
    requires q != [] && Resolve(here, f, q).Some?
    ensures q[0] in HeadNames(f)
  {
    if f.name != q[0] {
      ResolveHead(here, f.rest, q);
    }
  }
}
