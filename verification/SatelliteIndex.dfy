/** The poller: keeps the satellite index in step with the satellite's catalogue and reports what came and went. */
module SatelliteIndex {
  import opened Batching
  import opened IndexModel
  import opened OutboxModel
  import opened Outbox
  import opened SatelliteReports

  /** A content's downloads and deletions are reported under keys of the right kinds. */
  predicate NoClash(kindOf: string -> Kind, contentId: string) {
    kindOf(contentId).Downloaded? && kindOf(DELETED_PREFIX + contentId).Deleted?
  }

  ghost predicate ListedApart(kindOf: string -> Kind, catalogue: seq<Listing>) {
    forall l :: l in catalogue && Names(l.meta) ==> NoClash(kindOf, l.meta.contentId)
  }

  function AsSet(ids: seq<string>): set<string> {
    set c | c in ids
  }

  datatype DeletedInfo = DeletedInfo(sesCid: string, commandId: string)

  /** The index after a transaction or a report, and the reports made by then. */
  datatype Moment = Moment(index: Index, reports: seq<Entry>)

  ghost predicate AllIndexed(moments: seq<Moment>) {
    forall i :: 0 <= i < |moments| ==> Indexed(moments[i].index)
  }

  /** The reports are puts into the outbox, in this order, among those of others. */
  ghost predicate ArePuts(reports: seq<Entry>, at: seq<nat>, puts: seq<Put>) {
    && |at| == |reports|
    && (forall i :: 0 <= i < |at| ==> at[i] < |puts| && puts[at[i]].entry == reports[i])
    && forall i, j :: 0 <= i < j < |at| ==> at[i] < at[j]
  }

  lemma ArePutsStill(reports: seq<Entry>, at: seq<nat>, puts: seq<Put>, puts': seq<Put>)
    requires ArePuts(reports, at, puts) && puts <= puts'
    ensures ArePuts(reports, at, puts')
  {
  }

  lemma OneMorePut(reports: seq<Entry>, at: seq<nat>, puts: seq<Put>, put: Put)
    requires ArePuts(reports, at, puts)
    ensures ArePuts(reports + [put.entry], at + [|puts|], puts + [put])
  {
  }

  class Poller {
    const outbox: Outbox
    var sats: map<string, string>
    var assets: map<string, ContentInfo>

    /** The reports made so far, which put each of them was, and every moment between two steps. */
    ghost var reports: seq<Entry>
    ghost var putAt: seq<nat>
    ghost var moments: seq<Moment>

    ghost function Now(): Index
      reads this
    {
      Index(sats, assets)
    }

    ghost predicate Valid()
      reads this, outbox
    {
      && Indexed(Now()) && AllIndexed(moments)
      && outbox.Valid() && Idle(outbox.log) && ArePuts(reports, putAt, outbox.log.puts)
    }

    /** What is known is reported under keys of the right kinds. */
    ghost predicate KnownApart()
      reads this
    {
      forall v :: v in assets ==> NoClash(outbox.kindOf, v)
    }

    constructor (outbox: Outbox, stored: Index)
      requires Indexed(stored) && outbox.Valid() && Idle(outbox.log)
      requires forall v :: v in stored.assets ==> NoClash(outbox.kindOf, v)
      ensures Valid() && KnownApart() && Now() == stored && this.outbox == outbox && reports == [] && moments == []
    {
      this.outbox, sats, assets := outbox, stored.sats, stored.assets;
      reports, putAt, moments := [], [], [];
    }

    ghost method Record()
      requires Indexed(Now()) && AllIndexed(moments)
      modifies this`moments
      ensures AllIndexed(moments) && moments == old(moments) + [Moment(Now(), reports)]
    {
      moments := moments + [Moment(Now(), reports)];
    }

    /** One report put into the outbox; the handler and others may have done anything since the last one. */
    method Report(e: Entry)
      requires Valid() && IsContent(e.kind) && outbox.kindOf(e.id) == e.kind && Fresh(e)
      modifies this`reports, this`putAt, this`moments, outbox
      ensures Valid() && reports == old(reports) + [e]
      ensures moments == old(moments) + [Moment(Now(), reports)]
      ensures e.id in outbox.pending && outbox.pending[e.id] == e
    {
      ghost var puts0 := outbox.log.puts;
      outbox.Meanwhile();
      ArePutsStill(reports, putAt, puts0, outbox.log.puts);
      ghost var l := outbox.log;
      outbox.Put(e.id, e);
      OneMorePut(reports, putAt, l.puts, PutNow(l, e));
      reports, putAt := reports + [e], putAt + [|l.puts|];
      Record();
    }

    /** One listed content. If it is new, both maps are updated in one transaction and then its download is reported. */
    method GetMstoreFiles(meta: Metadata, now: int)
      requires Valid() && KnownApart() && (Names(meta) ==> NoClash(outbox.kindOf, meta.contentId))
      modifies this, outbox
      ensures Valid() && KnownApart()
      ensures ListingDone(old(Now()), old(reports), old(moments), meta, now, Now(), reports, moments)
      ensures if meta.Vod? && meta.contentId != "" && meta.contentId !in old(assets) then
                && sats == old(sats)[meta.cid := meta.contentId]
                && assets == old(assets)[meta.contentId := ContentInfo(now, meta.folderPath, meta.commandId)]
              else sats == old(sats) && assets == old(assets)
    {
      if meta.Failed? || meta.contentId == "" {
        return;
      }
      if meta.contentId in assets {
        return;
      }
      SyncKeepsIndexed(Now(), meta, now);
      sats := sats[meta.cid := meta.contentId];
      assets := assets[meta.contentId := ContentInfo(now, meta.folderPath, meta.commandId)];
      Record();
      var report := DownloadReport(meta, now);
      Report(report);
    }

    /** Compares the satellite map with the catalogue: which ids are gone, and what they map to. */
    method CollectDeleted(listed: set<string>) returns (ids: seq<string>, contents: seq<string>)
      requires Valid()
      ensures AreDropped(Now(), listed, ids, contents)
    {
      ids, contents := [], [];
      var keys := sats.Keys;
      while keys != {}
        invariant keys <= sats.Keys && |contents| == |ids|
        invariant forall c :: c in ids <==> c in Dropped(Now(), listed) && c !in keys
        invariant forall i, j :: 0 <= i < j < |ids| ==> ids[i] != ids[j]
        invariant forall i :: 0 <= i < |ids| ==> ids[i] in sats && contents[i] == sats[ids[i]]
      {
        var key :| key in keys;
        if key !in listed {
          assert key !in ids;
          ids := ids + [key];
          contents := contents + [sats[key]];
        }
        keys := keys - {key};
      }
    }

    /** What to report of each dropped content: the id that mapped to it and the command id still known. */
    method CollectInfos(ghost listed: set<string>, ids: seq<string>, contents: seq<string>)
      returns (infos: map<string, DeletedInfo>)
      requires Valid() && AreDropped(Now(), listed, ids, contents)
      ensures InfosOk(Now(), ids, contents, infos)
    {
      infos := map[];
      for i := 0 to |contents|
        invariant forall j :: 0 <= j < i ==>
                    contents[j] in infos && infos[contents[j]].commandId == assets[contents[j]].commandId
      {
        var v := contents[i];
        infos := infos[v := DeletedInfo("", if v in assets then assets[v].commandId else "")];
      }
      for i := 0 to |ids|
        invariant forall j :: 0 <= j < |ids| ==>
                    contents[j] in infos && infos[contents[j]].commandId == assets[contents[j]].commandId
        invariant forall j :: 0 <= j < i ==> infos[contents[j]].sesCid == ids[j]
      {
        var contentId := if ids[i] in sats then sats[ids[i]] else "";
        infos := infos[contentId := infos[contentId].(sesCid := ids[i])];
      }
    }

    /** Removes what is no longer listed: the satellite ids in one transaction, their contents in a second, and then
        one report per deleted content, in the order of `ids`; nothing more is done after a transaction that does not
        commit. */
    method HandleDeletedContents(catalogue: seq<Listing>, now: int, commits: Deletes) returns (ghost ids: seq<string>)
      requires Valid() && KnownApart()
      modifies this, outbox
      ensures Valid() && KnownApart() && old(moments) <= moments
      ensures ListDropped(old(Now()), Listed(catalogue), ids)
      ensures Now() == AfterDeletes(old(Now()), Listed(catalogue), commits)
      ensures reports == old(reports) + if commits.ids && commits.contents then Deletions(old(Now()), ids, now) else []
      ensures commits.ids && commits.contents ==>
                DropsTold(old(Now()), catalogue, now, reports[|old(reports)|..])
      ensures DeletionMoments(old(Now()), Listed(catalogue), ids, now, old(reports), moments, |old(moments)|)
    {
      ghost var reports0 := reports;
      var latest := set l | l in catalogue :: l.id;
      var dropped, contents := CollectDeleted(latest);
      ids := dropped;
      var infos := CollectInfos(latest, dropped, contents);
      ghost var before, earlier := Now(), moments;
      var ok := DeleteIndexed(latest, dropped, contents, commits);
      DeletingMoments(before, latest, ids, now, reports, commits, earlier, moments);
      if !ok {
        return;
      }
      assert Deletions(before, ids[..0], now) == [];
      ReportDeleted(dropped, contents, infos, now, before, latest, |earlier|);
      assert ids[..|ids|] == ids;
      DeletionsTell(before, catalogue, ids, now);
      assert reports[|reports0|..] == Deletions(before, ids, now);
    }

    /** The two deleting transactions; after one that fails nothing more is done. */
    method DeleteIndexed(ghost listed: set<string>, ids: seq<string>, contents: seq<string>, commits: Deletes)
      returns (ok: bool)
      requires Valid() && KnownApart() && AreDropped(Now(), listed, ids, contents)
      modifies this`sats, this`assets, this`moments
      ensures Valid() && KnownApart() && (ok <==> commits.ids && commits.contents)
      ensures Now() == AfterDeletes(old(Now()), listed, commits)
      ensures moments == old(moments)
                         + (if commits.ids then [Moment(HalfPrune(old(Now()), listed), reports)] else [])
                         + (if ok then [Moment(Now(), reports)] else [])
    {
      ghost var before := Now();
      HalfPruneKeepsIndexed(before, listed);
      PruneKeepsIndexed(before, listed);
      ContentsAsSet(before, ids, contents, listed);
      if !commits.ids {
        return false;
      }
      sats := sats - AsSet(ids);
      Record();
      if !commits.contents {
        return false;
      }
      assets := assets - AsSet(contents);
      Record();
      return true;
    }

    /** What has been reported when the first `n` of the deletions have been. */
    ghost predicate DeletionsMade(before: Index, listed: set<string>, ids: seq<string>, now: int, n: nat,
                                  reports0: seq<Entry>, from: nat)
      requires ListDropped(before, listed, ids) && n <= |ids|
      reads this, outbox
    {
      && Valid() && Now() == Prune(before, listed) && from <= |moments|
      && reports == reports0 + Deletions(before, ids[..n], now)
      && DeletionMoments(before, listed, ids, now, reports0, moments, from)
    }

    method ReportDeleted(ids: seq<string>, contents: seq<string>, infos: map<string, DeletedInfo>, now: int,
                         ghost before: Index, ghost listed: set<string>, ghost from: nat)
      requires ListDropped(before, listed, ids) && InfosOk(before, ids, contents, infos)
      requires AreDropped(before, listed, ids, contents)
      requires forall v :: v in before.assets ==> NoClash(outbox.kindOf, v)
      requires DeletionsMade(before, listed, ids, now, 0, reports, from)
      modifies this`reports, this`putAt, this`moments, outbox
      ensures DeletionsMade(before, listed, ids, now, |ids|, old(reports), from) && old(moments) <= moments
      ensures DropsToldInOrder(before, ids, now, reports[|old(reports)|..])
    {
      DeletionsTellInOrder(before, listed, ids, now);
      ghost var reports0 := reports;
      var i := 0;
      while i < |ids|
        invariant 0 <= i <= |ids| && old(moments) <= moments
        invariant DeletionsMade(before, listed, ids, now, i, reports0, from)
      {
        ReportOne(contents[i], infos[contents[i]], now, before, listed, ids, i, reports0, from);
        i := i + 1;
      }
      assert ids[..|ids|] == ids && reports[|reports0|..] == Deletions(before, ids, now);
    }

    /** The report of one deleted content. */
    method ReportOne(contentId: string, info: DeletedInfo, now: int, ghost before: Index, ghost listed: set<string>,
                     ghost ids: seq<string>, ghost i: nat, ghost reports0: seq<Entry>, ghost from: nat)
      requires ListDropped(before, listed, ids) && i < |ids| && contentId == before.sats[ids[i]]
      requires info == DeletedInfo(ids[i], before.assets[contentId].commandId) && NoClash(outbox.kindOf, contentId)
      requires DeletionsMade(before, listed, ids, now, i, reports0, from)
      modifies this`reports, this`putAt, this`moments, outbox
      ensures DeletionsMade(before, listed, ids, now, i + 1, reports0, from) && old(moments) <= moments
      ensures reports == old(reports) + [DeletionOf(before, ids[i], now)]
    {
      OneMoreDeletion(before, listed, ids, now, i, reports0, moments, from);
      var report := DeletionReport(contentId, info.sesCid, info.commandId, now);
      Report(report);
    }

    /** One poll; `fetched` is false if the catalogue could not be had, and `commits` says which of the deleting
        transactions commit. */
    method CheckForVOD(fetched: bool, catalogue: seq<Listing>, now: int, commits: Deletes)
      returns (ghost ids: seq<string>)
      requires Valid() && KnownApart()
      requires ListedApart(outbox.kindOf, catalogue)
      modifies this, outbox
      ensures Valid() && KnownApart() && old(moments) <= moments
      ensures !fetched ==> Now() == old(Now()) && reports == old(reports) && moments == old(moments)
      ensures fetched && commits.ids && commits.contents ==> Now() == Poll(old(Now()), catalogue, now)
      ensures fetched ==>
        var synced := SyncAll(old(Now()), catalogue, now);
        && ListDropped(synced, Listed(catalogue), ids)
        && Now() == AfterDeletes(synced, Listed(catalogue), commits)
        && reports == old(reports) + Downloads(old(Now()), catalogue, now)
                      + if commits.ids && commits.contents then Deletions(synced, ids, now) else []
      ensures fetched ==>
        PollMoments(old(Now()), catalogue, now, ids, old(reports), moments, |old(moments)|)
    {
      ids := [];
      if !fetched {
        return;
      }
      ghost var start, reports0, from := Now(), reports, |moments|;
      SyncCatalogue(catalogue, now);
      ghost var synced := moments;
      ids := HandleDeletedContents(catalogue, now, commits);
      AllPollMoments(start, catalogue, now, ids, reports0, synced, moments, from);
    }

    /** Goes through the catalogue, one listing after the other. */
    method SyncCatalogue(catalogue: seq<Listing>, now: int)
      requires Valid() && KnownApart()
      requires ListedApart(outbox.kindOf, catalogue)
      modifies this, outbox
      ensures Valid() && KnownApart() && old(moments) <= moments
      ensures Now() == SyncAll(old(Now()), catalogue, now)
      ensures reports == old(reports) + Downloads(old(Now()), catalogue, now)
      ensures AllNewTold(old(Now()), catalogue, now, reports[|old(reports)|..])
      ensures DownloadMoments(old(Now()), catalogue, now, old(reports), moments, |old(moments)|)
    {
      ghost var start, reports0, from := Now(), reports, |moments|;
      NothingSynced(start, catalogue, now, reports0, moments);
      for i := 0 to |catalogue|
        invariant Valid() && KnownApart() && old(moments) <= moments
        invariant SyncedTo(start, catalogue, now, i, reports0, from, Now(), reports, moments)
      {
        assert catalogue[i] in catalogue;
        ghost var y, made, ms := Now(), reports, moments;
        GetMstoreFiles(catalogue[i].meta, now);
        OneMoreListing(start, catalogue, now, i, reports0, from, y, made, ms, Now(), reports, moments);
      }
      AllSynced(start, catalogue, now, reports0, from, Now(), reports, moments);
    }

    /** Polls again and again while the catalogue stays the same: from the second poll on nothing changes, and after it
        nothing is reported; `made` are the reports of each poll. */
    method PollMstore(catalogue: seq<Listing>, times: seq<int>) returns (ghost made: seq<seq<Entry>>)
      requires Valid() && KnownApart() && Clean(catalogue)
      requires ListedApart(outbox.kindOf, catalogue)
      modifies this, outbox
      ensures Valid() && KnownApart() && old(moments) <= moments
      ensures Now() == Polls(old(Now()), catalogue, times)
      ensures |times| >= 2 ==> Settled(Now(), catalogue) && Now() == Polls(old(Now()), catalogue, times[..2])
      ensures |made| == |times| && reports == old(reports) + Concat(made)
      ensures QuietFrom(made, 2)
    {
      ghost var start, reports0 := Now(), reports;
      made := [];
      NoPolls(start, reports0, catalogue, times);
      for i := 0 to |times|
        invariant Valid() && KnownApart() && old(moments) <= moments
        invariant Polled(start, reports0, catalogue, times[..i], made, Now(), reports)
      {
        ghost var x, earlier := Now(), reports;
        ghost var more := PollOnce(catalogue, times[i]);
        OneMorePoll(start, reports0, catalogue, times, i, made, x, earlier, more, Now(), reports);
        made := made + [more];
      }
      PollsEnd(start, reports0, catalogue, times, made, Now(), reports);
    }

    /** A poll of a catalogue that could be had; nothing is reported from a settled state. */
    method PollOnce(catalogue: seq<Listing>, now: int) returns (ghost more: seq<Entry>)
      requires Valid() && KnownApart()
      requires ListedApart(outbox.kindOf, catalogue)
      modifies this, outbox
      ensures Valid() && KnownApart() && old(moments) <= moments
      ensures Now() == Poll(old(Now()), catalogue, now) && reports == old(reports) + more
      ensures Settled(old(Now()), catalogue) ==> more == []
    {
      ghost var before, reports0 := Now(), reports;
      ghost var ids := CheckForVOD(true, catalogue, now, Deletes(true, true));
      ghost var deletions := Deletions(SyncAll(before, catalogue, now), ids, now);
      more := Downloads(before, catalogue, now) + deletions;
      Regroup(reports0, Downloads(before, catalogue, now), deletions);
      if Settled(before, catalogue) {
        SettledReportsNothing(before, catalogue, now, ids);
      }
    }
  }

  // ----- Polls in a row -----

  ghost predicate QuietFrom(made: seq<seq<Entry>>, n: nat) {
    forall i :: n <= i < |made| ==> made[i] == []
  }

  lemma MoreMade(reports: seq<Entry>, made: seq<seq<Entry>>, more: seq<Entry>)
    ensures reports + Concat(made + [more]) == reports + Concat(made) + more
  {
    ConcatSnoc(made, more);
    Regroup(reports, Concat(made), more);
  }

  /** What a number of polls have done to the maps and what each has reported. */
  ghost predicate Polled(x: Index, reports0: seq<Entry>, catalogue: seq<Listing>, times: seq<int>,
                         made: seq<seq<Entry>>, x': Index, reports: seq<Entry>) {
    && x' == Polls(x, catalogue, times)
    && |made| == |times| && reports == reports0 + Concat(made) && QuietFrom(made, 2)
  }

  lemma NoPolls(x: Index, reports0: seq<Entry>, catalogue: seq<Listing>, times: seq<int>)
    ensures Polled(x, reports0, catalogue, times[..0], [], x, reports0)
  {
    assert reports0 + Concat([]) == reports0;
  }

  lemma OneMorePoll(x: Index, reports0: seq<Entry>, catalogue: seq<Listing>, times: seq<int>, i: nat,
                    made: seq<seq<Entry>>, x1: Index, reports1: seq<Entry>, more: seq<Entry>, x2: Index,
                    reports2: seq<Entry>)
    requires i < |times| && Clean(catalogue) && Polled(x, reports0, catalogue, times[..i], made, x1, reports1)
    requires x2 == Poll(x1, catalogue, times[i]) && reports2 == reports1 + more
    requires Settled(x1, catalogue) ==> more == []
    ensures Polled(x, reports0, catalogue, times[..i + 1], made + [more], x2, reports2)
  {
    NextPoll(x, catalogue, times, i);
    MoreMade(reports0, made, more);
  }

  lemma PollsEnd(x: Index, reports0: seq<Entry>, catalogue: seq<Listing>, times: seq<int>, made: seq<seq<Entry>>,
                 x': Index, reports: seq<Entry>)
    requires Clean(catalogue) && Polled(x, reports0, catalogue, times[..|times|], made, x', reports)
    ensures Polled(x, reports0, catalogue, times, made, x', reports)
    ensures |times| >= 2 ==> Settled(x', catalogue) && x' == Polls(x, catalogue, times[..2])
  {
    assert times[..|times|] == times;
    if |times| >= 2 {
      PollsSettle(x, catalogue, times);
    }
  }

  lemma Regroup(a: seq<Entry>, b: seq<Entry>, c: seq<Entry>)
    ensures a + b + c == a + (b + c)
  {
  }

  lemma SomeIds(made: seq<Entry>)
    requires made != []
    ensures IdsOf(made) != {}
  {
    assert made[0].id in IdsOf(made);
  }

  lemma SomeDropped(x: Index, listed: set<string>, ids: seq<string>)
    requires ids != [] && ListDropped(x, listed, ids)
    ensures Dropped(x, listed) != {}
  {
    assert ids[0] in ids;
  }

  lemma SettledReportsNothing(x: Index, catalogue: seq<Listing>, now: int, ids: seq<string>)
    requires Settled(x, catalogue) && ListDropped(SyncAll(x, catalogue, now), Listed(catalogue), ids)
    ensures Downloads(x, catalogue, now) == [] && ids == []
  {
    DownloadsExactly(x, catalogue, now);
    SettledIsFixpoint(x, catalogue, now);
    if Downloads(x, catalogue, now) != [] {
      SomeIds(Downloads(x, catalogue, now));
    }
    if ids != [] {
      SomeDropped(SyncAll(x, catalogue, now), Listed(catalogue), ids);
    }
  }

  lemma NextPoll(x: Index, catalogue: seq<Listing>, times: seq<int>, i: nat)
    requires i < |times| && Clean(catalogue)
    ensures Polls(x, catalogue, times[..i + 1]) == Poll(Polls(x, catalogue, times[..i]), catalogue, times[i])
    ensures i >= 2 ==> Settled(Polls(x, catalogue, times[..i]), catalogue)
  {
    assert times[..i + 1][..i] == times[..i];
    if i >= 2 {
      PollsSettle(x, catalogue, times[..i]);
    }
  }

  // ----- What a stop loses -----

  /** The downloads reported once the listing with index `j` has been indexed, or all up to and including its own. */
  ghost predicate AfterListing(x: Index, catalogue: seq<Listing>, now: int, j: nat, reports: seq<Entry>, m: Moment) {
    && j < |catalogue| && m.index == SyncAll(x, catalogue[..j + 1], now)
    && Names(catalogue[j].meta) && catalogue[j].meta.contentId !in SyncAll(x, catalogue[..j], now).assets
    && (m.reports == reports + Downloads(x, catalogue[..j], now)
        || m.reports == reports + Downloads(x, catalogue[..j + 1], now))
  }

  ghost predicate DownloadMoment(x: Index, catalogue: seq<Listing>, now: int, reports: seq<Entry>, m: Moment) {
    exists j: nat :: AfterListing(x, catalogue, now, j, reports, m)
  }

  /** Between the two deletions, or with both done and the first `n` of the deletions reported. */
  ghost predicate AfterDeleting(x: Index, listed: set<string>, ids: seq<string>, now: int, n: nat, reports: seq<Entry>,
                                m: Moment)
    requires ListDropped(x, listed, ids)
  {
    && n <= |ids| && m.reports == reports + Deletions(x, ids[..n], now)
    && (m.index == Prune(x, listed) || (n == 0 && m.index == HalfPrune(x, listed)))
  }

  ghost predicate DeletionMoment(x: Index, listed: set<string>, ids: seq<string>, now: int, reports: seq<Entry>,
                                 m: Moment)
    requires ListDropped(x, listed, ids)
  {
    exists n: nat :: AfterDeleting(x, listed, ids, now, n, reports, m)
  }

  ghost predicate DownloadMoments(x: Index, catalogue: seq<Listing>, now: int, reports: seq<Entry>, ms: seq<Moment>,
                                  from: nat) {
    forall i :: from <= i < |ms| ==> DownloadMoment(x, catalogue, now, reports, ms[i])
  }

  ghost predicate DeletionMoments(x: Index, listed: set<string>, ids: seq<string>, now: int, reports: seq<Entry>,
                                  ms: seq<Moment>, from: nat)
    requires ListDropped(x, listed, ids)
  {
    forall i :: from <= i < |ms| ==> DeletionMoment(x, listed, ids, now, reports, ms[i])
  }

  /** Every moment of a poll: first the downloads, then the deletions. */
  ghost predicate PollMoments(x: Index, catalogue: seq<Listing>, now: int, ids: seq<string>, reports: seq<Entry>,
                              ms: seq<Moment>, from: nat)
    requires ListDropped(SyncAll(x, catalogue, now), Listed(catalogue), ids)
  {
    exists middle: nat :: middle <= |ms| && DownloadMoments(x, catalogue, now, reports, ms[..middle], from)
      && DeletionMoments(SyncAll(x, catalogue, now), Listed(catalogue), ids, now,
                         reports + Downloads(x, catalogue, now), ms, middle)
  }

  lemma AllPollMoments(x: Index, catalogue: seq<Listing>, now: int, ids: seq<string>, reports: seq<Entry>,
                       synced: seq<Moment>, ms: seq<Moment>, from: nat)
    requires ListDropped(SyncAll(x, catalogue, now), Listed(catalogue), ids) && synced <= ms
    requires DownloadMoments(x, catalogue, now, reports, synced, from)
    requires DeletionMoments(SyncAll(x, catalogue, now), Listed(catalogue), ids, now,
                             reports + Downloads(x, catalogue, now), ms, |synced|)
    ensures PollMoments(x, catalogue, now, ids, reports, ms, from)
  {
    assert ms[..|synced|] == synced;
  }

  /** What has been done and reported once the first `n` listings have been gone through. */
  ghost predicate SyncedTo(x: Index, catalogue: seq<Listing>, now: int, n: nat, reports0: seq<Entry>, from: nat,
                           y: Index, reports: seq<Entry>, ms: seq<Moment>)
    requires n <= |catalogue|
  {
    && y == SyncAll(x, catalogue[..n], now) && reports == reports0 + Downloads(x, catalogue[..n], now)
    && from <= |ms| && DownloadMoments(x, catalogue, now, reports0, ms, from)
  }

  /** What one listing does: a new content is indexed and then reported. */
  ghost predicate ListingDone(y: Index, reports: seq<Entry>, ms: seq<Moment>, meta: Metadata, now: int, y': Index,
                              reports': seq<Entry>, ms': seq<Moment>) {
    if Names(meta) && meta.contentId !in y.assets then
      && y' == Sync(y, meta, now) && reports' == reports + [DownloadEntry(meta, now)]
      && ms' == ms + [Moment(y', reports), Moment(y', reports')]
    else y' == y && reports' == reports && ms' == ms
  }

  lemma OneMoreListing(x: Index, catalogue: seq<Listing>, now: int, i: nat, reports0: seq<Entry>, from: nat,
                       y: Index, reports: seq<Entry>, ms: seq<Moment>, y': Index, reports': seq<Entry>,
                       ms': seq<Moment>)
    requires i < |catalogue| && SyncedTo(x, catalogue, now, i, reports0, from, y, reports, ms)
    requires ListingDone(y, reports, ms, catalogue[i].meta, now, y', reports', ms')
    ensures SyncedTo(x, catalogue, now, i + 1, reports0, from, y', reports', ms')
  {
    assert catalogue[..i + 1][..i] == catalogue[..i];
    forall n | from <= n < |ms'|
      ensures DownloadMoment(x, catalogue, now, reports0, ms'[n])
    {
      if n < |ms| {
        assert ms'[n] == ms[n];
      } else {
        assert AfterListing(x, catalogue, now, i, reports0, ms'[n]);
      }
    }
  }

  lemma NothingSynced(x: Index, catalogue: seq<Listing>, now: int, reports0: seq<Entry>, ms: seq<Moment>)
    ensures SyncedTo(x, catalogue, now, 0, reports0, |ms|, x, reports0, ms)
  {
    assert catalogue[..0] == [] && reports0 + [] == reports0;
  }

  lemma AllSynced(x: Index, catalogue: seq<Listing>, now: int, reports0: seq<Entry>, from: nat, y: Index,
                  reports: seq<Entry>, ms: seq<Moment>)
    requires SyncedTo(x, catalogue, now, |catalogue|, reports0, from, y, reports, ms)
    ensures y == SyncAll(x, catalogue, now) && reports == reports0 + Downloads(x, catalogue, now)
    ensures AllNewTold(x, catalogue, now, reports[|reports0|..])
  {
    assert catalogue[..|catalogue|] == catalogue;
    DownloadsTell(x, catalogue, now);
    assert reports[|reports0|..] == Downloads(x, catalogue, now);
  }

  lemma DeletingMoments(x: Index, listed: set<string>, ids: seq<string>, now: int, reports: seq<Entry>,
                        commits: Deletes, earlier: seq<Moment>, ms: seq<Moment>)
    requires ListDropped(x, listed, ids)
    requires ms == earlier + (if commits.ids then [Moment(HalfPrune(x, listed), reports)] else [])
                   + (if commits.ids && commits.contents then [Moment(Prune(x, listed), reports)] else [])
    ensures DeletionMoments(x, listed, ids, now, reports, ms, |earlier|)
  {
    assert Deletions(x, ids[..0], now) == [];
    forall i | |earlier| <= i < |ms|
      ensures DeletionMoment(x, listed, ids, now, reports, ms[i])
    {
      assert AfterDeleting(x, listed, ids, now, 0, reports, ms[i]);
    }
  }

  /** One more deletion has been reported. */
  lemma OneMoreDeletion(x: Index, listed: set<string>, ids: seq<string>, now: int, i: nat, reports: seq<Entry>,
                        earlier: seq<Moment>, from: nat)
    requires ListDropped(x, listed, ids) && i < |ids|
    requires DeletionMoments(x, listed, ids, now, reports, earlier, from)
    ensures reports + Deletions(x, ids[..i + 1], now) ==
            reports + Deletions(x, ids[..i], now) + [DeletionOf(x, ids[i], now)]
    ensures DeletionMoments(x, listed, ids, now, reports,
                            earlier + [Moment(Prune(x, listed), reports + Deletions(x, ids[..i + 1], now))], from)
  {
    var ms := earlier + [Moment(Prune(x, listed), reports + Deletions(x, ids[..i + 1], now))];
    assert Deletions(x, ids[..i + 1], now) == Deletions(x, ids[..i], now) + [DeletionOf(x, ids[i], now)];
    forall n | from <= n < |ms|
      ensures DeletionMoment(x, listed, ids, now, reports, ms[n])
    {
      if n < |earlier| {
        assert ms[n] == earlier[n];
      } else {
        assert AfterDeleting(x, listed, ids, now, i + 1, reports, ms[n]);
      }
    }
  }

  /** The contents indexed since `x` of which no report has been made since. */
  function Unreported(x: Index, reports: seq<Entry>, m: Moment): set<string> {
    m.index.assets.Keys - x.assets.Keys - IdsOf(m.reports[if |reports| <= |m.reports| then |reports| else 0..])
  }

  /** While the catalogue is gone through, a stop finds at most one content indexed and not reported: the latest. */
  lemma OneUnreported(x: Index, catalogue: seq<Listing>, now: int, j: nat, reports: seq<Entry>, m: Moment)
    requires AfterListing(x, catalogue, now, j, reports, m)
    ensures Unreported(x, reports, m) ==
            if m.reports == reports + Downloads(x, catalogue[..j], now) then {catalogue[j].meta.contentId} else {}
  {
    var before, after := Downloads(x, catalogue[..j], now), Downloads(x, catalogue[..j + 1], now);
    NamedBy(x, catalogue, now, j);
    if m.reports == reports + before {
      assert m.reports[|reports|..] == before;
    } else {
      assert m.reports[|reports|..] == after;
    }
  }

  /** What is known and what has been reported after the first listings. */
  lemma NamedBy(x: Index, catalogue: seq<Listing>, now: int, j: nat)
    requires j < |catalogue| && Names(catalogue[j].meta)
    requires catalogue[j].meta.contentId !in SyncAll(x, catalogue[..j], now).assets
    ensures var v := catalogue[j].meta.contentId;
            && SyncAll(x, catalogue[..j + 1], now).assets.Keys - x.assets.Keys
               == IdsOf(Downloads(x, catalogue[..j + 1], now)) == IdsOf(Downloads(x, catalogue[..j], now)) + {v}
            && v !in IdsOf(Downloads(x, catalogue[..j], now))
  {
    assert catalogue[..j + 1] == catalogue[..j] + [catalogue[j]];
    KnownNow(x, catalogue[..j], now);
    KnownNow(x, catalogue[..j + 1], now);
    ContentsSnoc(catalogue[..j], catalogue[j]);
  }

  lemma KnownNow(x: Index, catalogue: seq<Listing>, now: int)
    ensures SyncAll(x, catalogue, now).assets.Keys == x.assets.Keys + Contents(catalogue)
    ensures IdsOf(Downloads(x, catalogue, now)) == Contents(catalogue) - x.assets.Keys
  {
    SyncAllFacts(x, catalogue, now);
    DownloadsExactly(x, catalogue, now);
  }

  /** Its report is lost for good, so that no number of later polls of the same catalogue reports it, if and only if
      its satellite id is listed or the next poll gives the id to another content. Otherwise the next poll drops the
      content and the one after that reports it as new. */
  lemma LostDownloadIff(x: Index, catalogue: seq<Listing>, now: int, j: nat, reports: seq<Entry>, m: Moment)
    requires Indexed(x) && AfterListing(x, catalogue, now, j, reports, m)
    ensures (forall times: seq<int>, later: int ::
               catalogue[j].meta.contentId !in IdsOf(Downloads(Polls(m.index, catalogue, times), catalogue, later)))
            <==> catalogue[j].meta.cid in Listed(catalogue) || TakenOver(m.index, catalogue, catalogue[j].meta.cid)
  {
    var v, c, y := catalogue[j].meta.contentId, catalogue[j].meta.cid, SyncAll(x, catalogue[..j], now);
    assert catalogue[..j + 1][..j] == catalogue[..j] && catalogue[j] in catalogue;
    SyncAllKeepsIndexed(x, catalogue[..j], now);
    assert m.index == Sync(y, catalogue[j].meta, now) && m.index.sats[c] == v;
    if c in Listed(catalogue) || TakenOver(m.index, catalogue, c) {
      forall times: seq<int>, later: int
        ensures v !in IdsOf(Downloads(Polls(m.index, catalogue, times), catalogue, later))
      {
        StaysKnown(m.index, catalogue, times, v);
        DownloadsExactly(Polls(m.index, catalogue, times), catalogue, later);
      }
    } else {
      DroppedByPoll(m.index, catalogue, 0, c);
      assert Polls(m.index, catalogue, [0]) == Poll(m.index, catalogue, 0);
      DownloadsExactly(Polls(m.index, catalogue, [0]), catalogue, 0);
      assert v in IdsOf(Downloads(Polls(m.index, catalogue, [0]), catalogue, 0));
    }
  }

  /** From the first deletion on, the deletions not yet reported are lost for good: no later poll of the same clean
      catalogue reports any deletion. */
  lemma LostDeletions(x: Index, catalogue: seq<Listing>, ids: seq<string>, now: int, n: nat, reports: seq<Entry>,
                      m: Moment, times: seq<int>, later: int)
    requires ListDropped(x, Listed(catalogue), ids) && AfterDeleting(x, Listed(catalogue), ids, now, n, reports, m)
    requires Clean(catalogue)
    ensures Dropped(SyncAll(Polls(m.index, catalogue, times), catalogue, later), Listed(catalogue)) == {}
  {
    NothingDroppedLater(m.index, catalogue, times, later);
  }

  /** `ids` are the satellite ids no longer listed, each once, and `contents` what they map to. */
  ghost predicate AreDropped(x: Index, listed: set<string>, ids: seq<string>, contents: seq<string>) {
    ListDropped(x, listed, ids) && |contents| == |ids|
    && forall i :: 0 <= i < |ids| ==> contents[i] == x.sats[ids[i]]
  }

  /** The id each content was mapped by, and the command id still known of it. */
  ghost predicate InfosOk(x: Index, ids: seq<string>, contents: seq<string>, infos: map<string, DeletedInfo>) {
    |contents| == |ids|
    && forall i :: 0 <= i < |ids| ==>
         contents[i] in x.assets && contents[i] in infos
         && infos[contents[i]] == DeletedInfo(ids[i], x.assets[contents[i]].commandId)
  }

  lemma ContentsAsSet(x: Index, ids: seq<string>, contents: seq<string>, listed: set<string>)
    requires AreDropped(x, listed, ids, contents)
    ensures AsSet(ids) == Dropped(x, listed)
    ensures AsSet(contents) == DroppedContents(x, listed)
  {
    forall v | v in DroppedContents(x, listed)
      ensures v in contents
    {
      var c :| c in Dropped(x, listed) && x.sats[c] == v;
      var i :| 0 <= i < |ids| && ids[i] == c;
      assert contents[i] == v;
    }
    forall v | v in contents
      ensures v in DroppedContents(x, listed)
    {
      var i :| 0 <= i < |contents| && contents[i] == v;
      assert ids[i] in ids;
    }
  }
}
