/** The satellite index on values: what one poll of the satellite's catalogue does to it, and where polling settles. */
module IndexModel {

  datatype ContentInfo = ContentInfo(downloadTime: int, folderPath: string, commandId: string)

  /** The answer to a metadata request. */
  datatype Metadata = Failed | Vod(cid: string, contentId: string, folderPath: string, location: string, size: string,
                                   commandId: string)

  datatype Listing = Listing(id: string, meta: Metadata)

  /** Satellite ids to content ids, and content ids to what is known of them. */
  datatype Index = Index(sats: map<string, string>, assets: map<string, ContentInfo>)

  predicate Names(meta: Metadata) {
    meta.Vod? && meta.contentId != ""
  }

  /** The index invariant: no content has two satellite ids, and every mapped content is known. */
  ghost predicate Indexed(x: Index) {
    && (forall c, d :: c in x.sats && d in x.sats && x.sats[c] == x.sats[d] ==> c == d)
    && (forall c :: c in x.sats ==> x.sats[c] in x.assets)
  }

  /** One listed content: indexed unless it is already known or has no usable metadata. */
  function Sync(x: Index, meta: Metadata, now: int): Index {
    if !Names(meta) || meta.contentId in x.assets then x
    else Index(x.sats[meta.cid := meta.contentId],
               x.assets[meta.contentId := ContentInfo(now, meta.folderPath, meta.commandId)])
  }

  function SyncAll(x: Index, catalogue: seq<Listing>, now: int): Index {
    if catalogue == [] then x
    else Sync(SyncAll(x, catalogue[..|catalogue| - 1], now), catalogue[|catalogue| - 1].meta, now)
  }

  function Listed(catalogue: seq<Listing>): set<string> {
    set l | l in catalogue :: l.id
  }

  function Contents(catalogue: seq<Listing>): set<string> {
    set l | l in catalogue && Names(l.meta) :: l.meta.contentId
  }

  /** The satellite ids that are no longer listed. */
  function Dropped(x: Index, listed: set<string>): set<string> {
    set c | c in x.sats && c !in listed
  }

  function DroppedContents(x: Index, listed: set<string>): set<string> {
    set c | c in x.sats && c !in listed :: x.sats[c]
  }

  /** Unlisted satellite ids removed, and their contents with them. */
  function Prune(x: Index, listed: set<string>): Index {
    Index(x.sats - Dropped(x, listed), x.assets - DroppedContents(x, listed))
  }

  /** Unlisted satellite ids removed, their contents not yet. */
  function HalfPrune(x: Index, listed: set<string>): Index {
    x.(sats := x.sats - Dropped(x, listed))
  }

  function Poll(x: Index, catalogue: seq<Listing>, now: int): Index {
    Prune(SyncAll(x, catalogue, now), Listed(catalogue))
  }

  /** Which of the two deleting transactions of a poll commit; the second is not tried without the first. */
  datatype Deletes = Deletes(ids: bool, contents: bool)

  function AfterDeletes(x: Index, listed: set<string>, commits: Deletes): Index {
    if !commits.ids then x else if !commits.contents then HalfPrune(x, listed) else Prune(x, listed)
  }

  /** One poll after the other, at these times. */
  function Polls(x: Index, catalogue: seq<Listing>, times: seq<int>): Index {
    if times == [] then x
    else Poll(Polls(x, catalogue, times[..|times| - 1]), catalogue, times[|times| - 1])
  }

  /** The k-th listing is the first one to name its content. */
  ghost predicate FirstNamed(catalogue: seq<Listing>, k: nat) {
    && k < |catalogue| && Names(catalogue[k].meta)
    && forall j :: 0 <= j < k && Names(catalogue[j].meta) ==> catalogue[j].meta.contentId != catalogue[k].meta.contentId
  }

  /** Each content is first named under a satellite id that is itself listed, as when every metadata answer carries the
      id it was asked for. */
  ghost predicate Clean(catalogue: seq<Listing>) {
    forall k: nat :: FirstNamed(catalogue, k) ==> catalogue[k].meta.cid in Listed(catalogue)
  }

  /** It is enough that every metadata answer carries the id it was asked for. */
  lemma MatchingIdsAreClean(catalogue: seq<Listing>)
    requires forall l :: l in catalogue && Names(l.meta) ==> l.meta.cid == l.id
    ensures Clean(catalogue)
  {
    forall k: nat | FirstNamed(catalogue, k)
      ensures catalogue[k].meta.cid in Listed(catalogue)
    {
      assert catalogue[k] in catalogue;
    }
  }

  // ----- The invariant -----

  lemma SyncKeepsIndexed(x: Index, meta: Metadata, now: int)
    requires Indexed(x)
    ensures Indexed(Sync(x, meta, now))
  {
  }

  /** Between the two deletions the satellite ids have gone and their contents have not. */
  lemma HalfPruneKeepsIndexed(x: Index, listed: set<string>)
    requires Indexed(x)
    ensures Indexed(HalfPrune(x, listed))
  {
  }

  /** A content still mapped by a listed satellite id is never removed. */
  lemma PruneKeepsIndexed(x: Index, listed: set<string>)
    requires Indexed(x)
    ensures Indexed(Prune(x, listed))
    ensures forall c :: c in x.sats && c in listed ==> x.sats[c] !in DroppedContents(x, listed)
    ensures forall v :: v in DroppedContents(x, listed) ==> exists c :: c in Dropped(x, listed) && x.sats[c] == v
  {
  }

  lemma {:induction false} SyncAllKeepsIndexed(x: Index, catalogue: seq<Listing>, now: int)
    requires Indexed(x)
    ensures Indexed(SyncAll(x, catalogue, now))
  {
    if catalogue != [] {
      SyncAllKeepsIndexed(x, catalogue[..|catalogue| - 1], now);
      SyncKeepsIndexed(SyncAll(x, catalogue[..|catalogue| - 1], now), catalogue[|catalogue| - 1].meta, now);
    }
  }

  lemma PollKeepsIndexed(x: Index, catalogue: seq<Listing>, now: int)
    requires Indexed(x)
    ensures Indexed(Poll(x, catalogue, now))
  {
    SyncAllKeepsIndexed(x, catalogue, now);
    PruneKeepsIndexed(SyncAll(x, catalogue, now), Listed(catalogue));
  }

  // ----- Convergence -----

  /** The k-th listing is what made `y` map `c` to `v`. */
  ghost predicate MappedBy(x: Index, catalogue: seq<Listing>, c: string, v: string, k: nat) {
    FirstNamed(catalogue, k) && catalogue[k].meta.cid == c && catalogue[k].meta.contentId == v && v !in x.assets
  }

  ghost predicate KnownAfter(x: Index, catalogue: seq<Listing>, y: Index) {
    && x.assets.Keys + Contents(catalogue) == y.assets.Keys
    && (forall c :: c in x.sats ==> c in y.sats)
    && (Contents(catalogue) <= x.assets.Keys ==> y == x)
  }

  ghost predicate ChangesMapped(x: Index, catalogue: seq<Listing>, y: Index) {
    forall c :: c in y.sats && (c !in x.sats || y.sats[c] != x.sats[c]) ==>
      exists k: nat :: MappedBy(x, catalogue, c, y.sats[c], k)
  }

  ghost predicate NewIdsInUse(x: Index, catalogue: seq<Listing>, y: Index) {
    forall k: nat :: FirstNamed(catalogue, k) && catalogue[k].meta.contentId !in x.assets ==>
      catalogue[k].meta.cid in y.sats && y.sats[catalogue[k].meta.cid] !in x.assets
  }

  /** What this metadata says is known of its content. */
  predicate InfoAt(y: Index, meta: Metadata, now: int) {
    && meta.Vod? && meta.contentId in y.assets && y.assets[meta.contentId].downloadTime == now
    && y.assets[meta.contentId].folderPath == meta.folderPath && y.assets[meta.contentId].commandId == meta.commandId
  }

  /** What was known stays as it was; of a new content, what the first listing naming it says is known. */
  ghost predicate InfoFrom(x: Index, catalogue: seq<Listing>, now: int, y: Index) {
    && (forall v :: v in x.assets ==> v in y.assets && y.assets[v] == x.assets[v])
    && forall k: nat :: FirstNamed(catalogue, k) && catalogue[k].meta.contentId !in x.assets ==>
         InfoAt(y, catalogue[k].meta, now)
  }

  lemma {:induction false} SyncAllInfo(x: Index, catalogue: seq<Listing>, now: int)
    ensures InfoFrom(x, catalogue, now, SyncAll(x, catalogue, now))
  {
    if catalogue != [] {
      var init, last := catalogue[..|catalogue| - 1], catalogue[|catalogue| - 1];
      SyncAllInfo(x, init, now);
      SyncAllFacts(x, init, now);
      InfoLast(x, init, last, SyncAll(x, init, now), now);
      assert init + [last] == catalogue;
    }
  }

  lemma InfoLast(x: Index, init: seq<Listing>, last: Listing, y: Index, now: int)
    requires InfoFrom(x, init, now, y) && KnownAfter(x, init, y)
    ensures InfoFrom(x, init + [last], now, Sync(y, last.meta, now))
  {
    var catalogue, z := init + [last], Sync(y, last.meta, now);
    FirstNamedEarlier(init, last);
    FirstNamedLast(init, last);
    assert forall v :: v in y.assets ==> v in z.assets && z.assets[v] == y.assets[v];
    forall k: nat | FirstNamed(catalogue, k) && catalogue[k].meta.contentId !in x.assets
      ensures InfoAt(z, catalogue[k].meta, now)
    {
      if k < |init| {
        assert FirstNamed(init, k) && catalogue[k] == init[k] && InfoAt(y, init[k].meta, now);
      } else {
        assert catalogue[k] == last && last.meta.contentId !in y.assets;
      }
    }
  }

  ghost predicate SyncedFrom(x: Index, catalogue: seq<Listing>, y: Index) {
    KnownAfter(x, catalogue, y) && ChangesMapped(x, catalogue, y) && NewIdsInUse(x, catalogue, y)
  }

  lemma FirstNamedEarlier(init: seq<Listing>, last: Listing)
    ensures forall k: nat :: k < |init| ==> (FirstNamed(init, k) <==> FirstNamed(init + [last], k))
  {
    assert forall j :: 0 <= j < |init| ==> (init + [last])[j] == init[j];
  }

  lemma FirstNamedLast(init: seq<Listing>, last: Listing)
    ensures FirstNamed(init + [last], |init|) <==> Names(last.meta) && last.meta.contentId !in Contents(init)
  {
    var catalogue := init + [last];
    assert forall j :: 0 <= j < |init| ==> catalogue[j] == init[j] && init[j] in init;
    if Names(last.meta) && last.meta.contentId in Contents(init) {
      var l :| l in init && Names(l.meta) && l.meta.contentId == last.meta.contentId;
      var j :| 0 <= j < |init| && init[j] == l;
      assert catalogue[j] == l;
    }
  }

  lemma {:induction false} SyncAllFacts(x: Index, catalogue: seq<Listing>, now: int)
    ensures SyncedFrom(x, catalogue, SyncAll(x, catalogue, now))
  {
    if catalogue != [] {
      var init, last := catalogue[..|catalogue| - 1], catalogue[|catalogue| - 1];
      var y := SyncAll(x, init, now);
      SyncAllFacts(x, init, now);
      SyncLast(x, init, last, y, now);
      assert init + [last] == catalogue && SyncAll(x, catalogue, now) == Sync(y, last.meta, now);
    }
  }

  lemma SyncLast(x: Index, init: seq<Listing>, last: Listing, y: Index, now: int)
    requires SyncedFrom(x, init, y)
    ensures SyncedFrom(x, init + [last], Sync(y, last.meta, now))
  {
    FirstNamedEarlier(init, last);
    FirstNamedLast(init, last);
    KnownLast(x, init, last, y, now);
    ChangesLast(x, init, last, y, now);
    NewIdsLast(x, init, last, y, now);
  }

  lemma KnownLast(x: Index, init: seq<Listing>, last: Listing, y: Index, now: int)
    requires KnownAfter(x, init, y)
    ensures KnownAfter(x, init + [last], Sync(y, last.meta, now))
  {
    var catalogue := init + [last];
    assert forall l :: l in catalogue <==> l in init || l == last;
    assert Contents(catalogue) == Contents(init) + if Names(last.meta) then {last.meta.contentId} else {};
  }

  lemma ChangesLast(x: Index, init: seq<Listing>, last: Listing, y: Index, now: int)
    requires KnownAfter(x, init, y) && ChangesMapped(x, init, y)
    requires forall k: nat :: k < |init| ==> (FirstNamed(init, k) <==> FirstNamed(init + [last], k))
    requires FirstNamed(init + [last], |init|) <==> Names(last.meta) && last.meta.contentId !in Contents(init)
    ensures ChangesMapped(x, init + [last], Sync(y, last.meta, now))
  {
    var catalogue, z := init + [last], Sync(y, last.meta, now);
    forall c | c in z.sats && (c !in x.sats || z.sats[c] != x.sats[c])
      ensures exists k: nat :: MappedBy(x, catalogue, c, z.sats[c], k)
    {
      if c in y.sats && z.sats[c] == y.sats[c] {
        var k: nat :| MappedBy(x, init, c, y.sats[c], k);
        assert catalogue[k] == init[k];
        assert MappedBy(x, catalogue, c, z.sats[c], k);
      } else {
        assert catalogue[|init|] == last;
        assert MappedBy(x, catalogue, c, z.sats[c], |init|);
      }
    }
  }

  lemma NewIdsLast(x: Index, init: seq<Listing>, last: Listing, y: Index, now: int)
    requires KnownAfter(x, init, y) && NewIdsInUse(x, init, y)
    requires forall k: nat :: k < |init| ==> (FirstNamed(init, k) <==> FirstNamed(init + [last], k))
    requires FirstNamed(init + [last], |init|) <==> Names(last.meta) && last.meta.contentId !in Contents(init)
    ensures NewIdsInUse(x, init + [last], Sync(y, last.meta, now))
  {
    var catalogue, z := init + [last], Sync(y, last.meta, now);
    forall k: nat | FirstNamed(catalogue, k) && catalogue[k].meta.contentId !in x.assets
      ensures catalogue[k].meta.cid in z.sats && z.sats[catalogue[k].meta.cid] !in x.assets
    {
      if k < |init| {
        assert FirstNamed(init, k) && catalogue[k] == init[k];
        assert x.assets.Keys <= y.assets.Keys;
      } else {
        assert catalogue[k] == last && last.meta.contentId !in y.assets;
      }
    }
  }

  lemma NothingDropped(x: Index, listed: set<string>)
    requires x.sats.Keys <= listed
    ensures Prune(x, listed) == x
  {
    assert Dropped(x, listed) == {} && DroppedContents(x, listed) == {};
  }

  /** The state in which another poll of the same catalogue changes nothing and reports nothing. */
  ghost predicate Settled(x: Index, catalogue: seq<Listing>) {
    Contents(catalogue) <= x.assets.Keys && x.sats.Keys <= Listed(catalogue)
  }

  lemma SettledIsFixpoint(x: Index, catalogue: seq<Listing>, now: int)
    requires Settled(x, catalogue)
    ensures SyncAll(x, catalogue, now) == x && Dropped(x, Listed(catalogue)) == {} && Poll(x, catalogue, now) == x
  {
    SyncAllFacts(x, catalogue, now);
    NothingDropped(x, Listed(catalogue));
  }

  lemma PollListsOnly(x: Index, catalogue: seq<Listing>, now: int)
    ensures Poll(x, catalogue, now).sats.Keys <= Listed(catalogue)
  {
  }

  /** From any state, two polls of the same clean catalogue settle the index. */
  lemma TwoPollsSettle(x: Index, catalogue: seq<Listing>, t1: int, t2: int)
    requires Clean(catalogue)
    ensures Settled(Poll(Poll(x, catalogue, t1), catalogue, t2), catalogue)
    ensures forall t3 :: var y := Poll(Poll(x, catalogue, t1), catalogue, t2);
                         SyncAll(y, catalogue, t3) == y && Poll(y, catalogue, t3) == y
  {
    var x1 := Poll(x, catalogue, t1);
    PollListsOnly(x, catalogue, t1);
    var y := SyncAll(x1, catalogue, t2);
    SyncAllFacts(x1, catalogue, t2);
    forall c | c in y.sats
      ensures c in Listed(catalogue)
    {
      if c !in x1.sats {
        var k: nat :| MappedBy(x1, catalogue, c, y.sats[c], k);
      }
    }
    NothingDropped(y, Listed(catalogue));
    forall t3: int
      ensures SyncAll(y, catalogue, t3) == y && Poll(y, catalogue, t3) == y
    {
      SettledIsFixpoint(y, catalogue, t3);
    }
  }

  /** However often a clean catalogue is polled, from the second poll on the index stays as it is. */
  lemma {:induction false} PollsSettle(x: Index, catalogue: seq<Listing>, times: seq<int>)
    requires Clean(catalogue) && |times| >= 2
    ensures Settled(Polls(x, catalogue, times), catalogue)
    ensures Polls(x, catalogue, times) == Polls(x, catalogue, times[..2])
  {
    var init := times[..|times| - 1];
    if |times| == 2 {
      assert init[..1] == init && init[..0] == [] && times[..2] == times;
      assert Polls(x, catalogue, init) == Poll(x, catalogue, times[0]);
      TwoPollsSettle(x, catalogue, times[0], times[1]);
    } else {
      PollsSettle(x, catalogue, init);
      assert init[..2] == times[..2];
      SettledIsFixpoint(Polls(x, catalogue, init), catalogue, times[|times| - 1]);
    }
  }

  /** One poll settles the index exactly when no content has moved to a new satellite id: no unlisted id is mapped to
      a content that is listed. */
  lemma OnePollSettlesIff(x: Index, catalogue: seq<Listing>, now: int)
    requires Clean(catalogue)
    ensures Settled(Poll(x, catalogue, now), catalogue) <==>
            forall c :: c in x.sats && c !in Listed(catalogue) ==> x.sats[c] !in Contents(catalogue)
  {
    var y := SyncAll(x, catalogue, now);
    SyncAllFacts(x, catalogue, now);
    PollListsOnly(x, catalogue, now);
    UnlistedUntouched(x, catalogue, now);
    var listed := Listed(catalogue);
    if c :| c in x.sats && c !in listed && x.sats[c] in Contents(catalogue) {
      assert x.sats[c] in DroppedContents(y, listed);
    }
  }

  lemma UnlistedUntouched(x: Index, catalogue: seq<Listing>, now: int)
    requires Clean(catalogue)
    ensures DroppedContents(SyncAll(x, catalogue, now), Listed(catalogue)) == DroppedContents(x, Listed(catalogue))
  {
    var y, listed := SyncAll(x, catalogue, now), Listed(catalogue);
    SyncAllFacts(x, catalogue, now);
    forall c | c !in listed
      ensures c in y.sats <==> c in x.sats
      ensures c in x.sats ==> y.sats[c] == x.sats[c]
    {
    }
    assert forall c :: c in Dropped(x, listed) <==> c in Dropped(y, listed);
  }

  /** Some content is unknown and would be indexed under an id that is not listed. */
  ghost predicate Churning(x: Index, catalogue: seq<Listing>, c: string) {
    && c !in x.sats && c !in Listed(catalogue)
    && exists k: nat ::
         FirstNamed(catalogue, k) && catalogue[k].meta.cid == c && catalogue[k].meta.contentId !in x.assets
  }

  /** Such a content is indexed and dropped by the same poll, and the next poll is no better off. */
  lemma ChurningStays(x: Index, catalogue: seq<Listing>, now: int, c: string)
    requires Churning(x, catalogue, c)
    ensures Churning(Poll(x, catalogue, now), catalogue, c)
    ensures !Settled(Poll(x, catalogue, now), catalogue)
  {
    var y := SyncAll(x, catalogue, now);
    SyncAllFacts(x, catalogue, now);
    var k: nat :| MappedBy(x, catalogue, c, y.sats[c], k);
    assert c in Dropped(y, Listed(catalogue)) && y.sats[c] in DroppedContents(y, Listed(catalogue));
    assert catalogue[k] in catalogue && y.sats[c] in Contents(catalogue);
    var v := catalogue[k].meta.contentId;
    assert FirstNamed(catalogue, k) && catalogue[k].meta.cid == c && v !in Poll(x, catalogue, now).assets;
  }

  /** Two polls settle the index from every state exactly when the catalogue is clean. */
  lemma SettlesIffClean(catalogue: seq<Listing>, t1: int, t2: int)
    ensures (forall x :: Settled(Poll(Poll(x, catalogue, t1), catalogue, t2), catalogue)) <==> Clean(catalogue)
  {
    if Clean(catalogue) {
      forall x
        ensures Settled(Poll(Poll(x, catalogue, t1), catalogue, t2), catalogue)
      {
        TwoPollsSettle(x, catalogue, t1, t2);
      }
    } else {
      var k: nat :| FirstNamed(catalogue, k) && catalogue[k].meta.cid !in Listed(catalogue);
      var x := Index(map[], map[]);
      var c := catalogue[k].meta.cid;
      assert Churning(x, catalogue, c);
      ChurningStays(x, catalogue, t1, c);
      ChurningStays(Poll(x, catalogue, t1), catalogue, t2, c);
    }
  }

  // ----- What the two maps do not promise -----

  /** Contents known but mapped by no satellite id. */
  function Orphans(x: Index): set<string> {
    x.assets.Keys - x.sats.Values
  }

  /** Indexing a content leaves another one orphaned exactly when its satellite id was already in use. */
  lemma SyncOrphansIff(x: Index, meta: Metadata, now: int)
    requires Indexed(x) && Names(meta) && meta.contentId !in x.assets
    ensures Orphans(Sync(x, meta, now)) ==
            Orphans(x) + if meta.cid in x.sats then {x.sats[meta.cid]} else {}
  {
    var y := Sync(x, meta, now);
    assert y.sats[meta.cid] == meta.contentId && meta.cid in y.sats;
    forall v | v in x.sats.Values
      ensures v in y.sats.Values <==> meta.cid !in x.sats || v != x.sats[meta.cid]
    {
      var c :| c in x.sats && x.sats[c] == v;
      if c != meta.cid {
        assert c in y.sats && y.sats[c] == v;
      }
    }
  }

  /** No poll ever removes or maps an orphan again, whatever the catalogue. */
  lemma OrphansStay(x: Index, catalogue: seq<Listing>, now: int)
    requires Indexed(x)
    ensures Orphans(x) <= Orphans(Poll(x, catalogue, now))
  {
    var y := SyncAll(x, catalogue, now);
    OrphansStaySynced(x, catalogue, now);
    forall v | v in Orphans(y)
      ensures v in Orphans(Prune(y, Listed(catalogue)))
    {
      assert v !in DroppedContents(y, Listed(catalogue));
    }
  }

  lemma {:induction false} OrphansStaySynced(x: Index, catalogue: seq<Listing>, now: int)
    requires Indexed(x)
    ensures Orphans(x) <= Orphans(SyncAll(x, catalogue, now))
  {
    if catalogue != [] {
      var init, meta := catalogue[..|catalogue| - 1], catalogue[|catalogue| - 1].meta;
      OrphansStaySynced(x, init, now);
      SyncAllKeepsIndexed(x, init, now);
      var y := SyncAll(x, init, now);
      if Names(meta) && meta.contentId !in y.assets {
        SyncOrphansIff(y, meta, now);
      }
    }
  }

  /** A stop between the two deletions orphans the contents that were about to be deleted. */
  lemma HalfPruneOrphans(x: Index, listed: set<string>)
    requires Indexed(x)
    ensures Orphans(HalfPrune(x, listed)) == Orphans(x) + DroppedContents(x, listed)
  {
    var half := HalfPrune(x, listed);
    forall v | v in x.assets
      ensures v in half.sats.Values <==> v in x.sats.Values && v !in DroppedContents(x, listed)
    {
      if v in x.sats.Values && v !in DroppedContents(x, listed) {
        var c :| c in x.sats && x.sats[c] == v;
        assert c in half.sats && half.sats[c] == v;
      }
    }
  }

  // ----- What no later poll makes up for -----

  /** The next poll gives the satellite id to another content. */
  ghost predicate TakenOver(x: Index, catalogue: seq<Listing>, c: string) {
    exists k: nat ::
      FirstNamed(catalogue, k) && catalogue[k].meta.cid == c && catalogue[k].meta.contentId !in x.assets
  }

  /** The content is known, and whatever id maps to it is listed or about to be taken over. */
  ghost predicate KnownForGood(x: Index, catalogue: seq<Listing>, v: string) {
    v in x.assets && forall c :: c in x.sats && x.sats[c] == v ==> c in Listed(catalogue) || TakenOver(x, catalogue, c)
  }

  /** Such a content stays known, however often the catalogue is polled. */
  lemma {:induction false} StaysKnown(x: Index, catalogue: seq<Listing>, times: seq<int>, v: string)
    requires KnownForGood(x, catalogue, v)
    ensures KnownForGood(Polls(x, catalogue, times), catalogue, v)
  {
    if times != [] {
      var z, now := Polls(x, catalogue, times[..|times| - 1]), times[|times| - 1];
      StaysKnown(x, catalogue, times[..|times| - 1], v);
      KeptByPoll(z, catalogue, now, v);
    }
  }

  lemma KeptByPoll(x: Index, catalogue: seq<Listing>, now: int, v: string)
    requires KnownForGood(x, catalogue, v)
    ensures KnownForGood(Poll(x, catalogue, now), catalogue, v)
  {
    var y, listed := SyncAll(x, catalogue, now), Listed(catalogue);
    SyncAllFacts(x, catalogue, now);
    forall c | c in y.sats && c !in listed
      ensures y.sats[c] != v
    {
      if c in x.sats && x.sats[c] == v {
        var k: nat :| FirstNamed(catalogue, k) && catalogue[k].meta.cid == c
                      && catalogue[k].meta.contentId !in x.assets;
      }
    }
    assert v in x.assets.Keys && v !in DroppedContents(y, listed);
    PollListsOnly(x, catalogue, now);
  }

  lemma ChangedIsTakenOver(x: Index, catalogue: seq<Listing>, y: Index, c: string)
    requires ChangesMapped(x, catalogue, y) && c in x.sats && c in y.sats && y.sats[c] != x.sats[c]
    ensures TakenOver(x, catalogue, c)
  {
    var k: nat :| MappedBy(x, catalogue, c, y.sats[c], k);
    assert catalogue[k].meta.contentId !in x.assets;
  }

  /** Otherwise the next poll drops it. */
  lemma DroppedByPoll(x: Index, catalogue: seq<Listing>, now: int, c: string)
    requires c in x.sats && x.sats[c] in x.assets && c !in Listed(catalogue) && !TakenOver(x, catalogue, c)
    ensures x.sats[c] !in Poll(x, catalogue, now).assets
  {
    var y := SyncAll(x, catalogue, now);
    SyncAllFacts(x, catalogue, now);
    if y.sats[c] != x.sats[c] {
      ChangedIsTakenOver(x, catalogue, y, c);
    }
    assert c in Dropped(y, Listed(catalogue)) && y.sats[c] in DroppedContents(y, Listed(catalogue));
  }

  /** Once no unlisted satellite id is mapped, polls of the same clean catalogue drop nothing. */
  lemma {:induction false} NothingDroppedLater(x: Index, catalogue: seq<Listing>, times: seq<int>, now: int)
    requires Clean(catalogue) && x.sats.Keys <= Listed(catalogue)
    ensures Polls(x, catalogue, times).sats.Keys <= Listed(catalogue)
    ensures Dropped(SyncAll(Polls(x, catalogue, times), catalogue, now), Listed(catalogue)) == {}
  {
    if times != [] {
      PollListsOnly(Polls(x, catalogue, times[..|times| - 1]), catalogue, times[|times| - 1]);
    }
    var z := Polls(x, catalogue, times);
    SyncAllFacts(z, catalogue, now);
    forall c | c in SyncAll(z, catalogue, now).sats
      ensures c in Listed(catalogue)
    {
      if c !in z.sats {
        var k: nat :| MappedBy(z, catalogue, c, SyncAll(z, catalogue, now).sats[c], k);
      }
    }
  }
}
