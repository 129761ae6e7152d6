/** What the poller reports of the contents that came and went. */
module SatelliteReports {
  import opened IndexModel
  import opened OutboxModel

  function DownloadEntry(meta: Metadata, now: int): Entry
    requires meta.Vod?
  {
    Entry(meta.contentId, Downloaded, 0, now, true, true,
          [Property("sesCid", meta.cid), Property("size", meta.size),
           Property("commandId", meta.commandId), Property("containerLocation", meta.location)])
  }

  function DeletionEntry(contentId: string, cid: string, commandId: string, now: int): Entry {
    Entry(DELETED_PREFIX + contentId, Deleted, 0, now, true, true,
          [Property("sesCid", cid), Property("commandId", commandId)])
  }

  /** The report of a dropped satellite id, with the command id known before anything was deleted. */
  function DeletionOf(x: Index, c: string, now: int): Entry
    requires c in x.sats && x.sats[c] in x.assets
  {
    DeletionEntry(x.sats[c], c, x.assets[x.sats[c]].commandId, now)
  }

  /** The downloads a poll reports from this state of the index, in order. */
  function Downloads(x: Index, catalogue: seq<Listing>, now: int): seq<Entry> {
    if catalogue == [] then []
    else
      var init, meta := catalogue[..|catalogue| - 1], catalogue[|catalogue| - 1].meta;
      Downloads(x, init, now)
      + if Names(meta) && meta.contentId !in SyncAll(x, init, now).assets then [DownloadEntry(meta, now)] else []
  }

  /** The deletions reported of these satellite ids. */
  function Deletions(x: Index, ids: seq<string>, now: int): seq<Entry>
    requires forall i :: 0 <= i < |ids| ==> ids[i] in x.sats && x.sats[ids[i]] in x.assets
  {
    seq(|ids|, i requires 0 <= i < |ids| => DeletionOf(x, ids[i], now))
  }

  /** `ids` are the satellite ids no longer listed, each once. */
  ghost predicate ListDropped(x: Index, listed: set<string>, ids: seq<string>) {
    && (forall c :: c in ids <==> c in Dropped(x, listed))
    && (forall i, j :: 0 <= i < j < |ids| ==> ids[i] != ids[j])
    && (forall i :: 0 <= i < |ids| ==> ids[i] in x.sats && x.sats[ids[i]] in x.assets)
  }

  // ----- What a report says -----

  /** There is one property with this key, and it has this value. */
  ghost predicate Only(properties: seq<Property>, key: string, value: string) {
    exists i :: 0 <= i < |properties| && properties[i] == Property(key, value)
                && forall j :: 0 <= j < |properties| && properties[j].key == key ==> j == i
  }

  /** A report just made: both channels are due and none has refused it. */
  predicate JustMade(e: Entry, now: int) {
    e.retries == 0 && e.cloud && e.iot && e.time == now
  }

  ghost predicate TellsDownload(e: Entry, meta: Metadata, now: int) {
    && meta.Vod? && JustMade(e, now) && e.kind.Downloaded? && e.id == meta.contentId && |e.properties| == 4
    && Only(e.properties, "sesCid", meta.cid) && Only(e.properties, "commandId", meta.commandId)
    && Only(e.properties, "containerLocation", meta.location) && Only(e.properties, "size", meta.size)
  }

  ghost predicate TellsDeletion(e: Entry, contentId: string, cid: string, commandId: string, now: int) {
    && JustMade(e, now) && e.kind.Deleted? && e.id == "DL_" + contentId && |e.properties| == 2
    && Only(e.properties, "sesCid", cid) && Only(e.properties, "commandId", commandId)
  }

  /** The report of a downloaded content. */
  method DownloadReport(meta: Metadata, now: int) returns (e: Entry)
    requires meta.Vod?
    ensures e == DownloadEntry(meta, now)
  {
    var info: seq<Property> := [];
    info := info + [Property("sesCid", meta.cid)];
    info := info + [Property("size", meta.size)];
    info := info + [Property("commandId", meta.commandId)];
    info := info + [Property("containerLocation", meta.location)];
    return Entry(meta.contentId, Downloaded, 0, now, true, true, info);
  }

  /** The report of a deleted content. */
  method DeletionReport(contentId: string, cid: string, commandId: string, now: int) returns (e: Entry)
    ensures e == DeletionEntry(contentId, cid, commandId, now)
  {
    var info: seq<Property> := [];
    info := info + [Property("sesCid", cid)];
    info := info + [Property("commandId", commandId)];
    return Entry("DL_" + contentId, Deleted, 0, now, true, true, info);
  }

  lemma DownloadTells(meta: Metadata, now: int)
    requires meta.Vod?
    ensures TellsDownload(DownloadEntry(meta, now), meta, now)
  {
    var ps := DownloadEntry(meta, now).properties;
    assert ps[0] == Property("sesCid", meta.cid) && ps[1] == Property("size", meta.size);
    assert ps[2] == Property("commandId", meta.commandId) && ps[3] == Property("containerLocation", meta.location);
  }

  lemma DeletionTells(contentId: string, cid: string, commandId: string, now: int)
    ensures TellsDeletion(DeletionEntry(contentId, cid, commandId, now), contentId, cid, commandId, now)
  {
    var ps := DeletionEntry(contentId, cid, commandId, now).properties;
    assert ps[0] == Property("sesCid", cid) && ps[1] == Property("commandId", commandId);
  }

  /** One report per dropped id, in this order. */
  ghost predicate DropsToldInOrder(x: Index, ids: seq<string>, now: int, made: seq<Entry>) {
    |made| == |ids|
    && forall i :: 0 <= i < |ids| ==>
         && ids[i] in x.sats && x.sats[ids[i]] in x.assets
         && TellsDeletion(made[i], x.sats[ids[i]], ids[i], x.assets[x.sats[ids[i]]].commandId, now)
  }

  lemma DeletionsTellInOrder(x: Index, listed: set<string>, ids: seq<string>, now: int)
    requires ListDropped(x, listed, ids)
    ensures DropsToldInOrder(x, ids, now, Deletions(x, ids, now))
  {
    forall i | 0 <= i < |ids|
      ensures TellsDeletion(Deletions(x, ids, now)[i], x.sats[ids[i]], ids[i], x.assets[x.sats[ids[i]]].commandId, now)
    {
      DeletionTells(x.sats[ids[i]], ids[i], x.assets[x.sats[ids[i]]].commandId, now);
    }
  }

  ghost predicate Unlisted(catalogue: seq<Listing>, c: string) {
    forall l :: l in catalogue ==> l.id != c
  }

  /** The report with index `i`, and no other of the content, tells that the dropped id's content is gone. */
  ghost predicate DropToldAt(x: Index, c: string, now: int, made: seq<Entry>, i: nat)
    requires c in x.sats && x.sats[c] in x.assets
  {
    && i < |made| && TellsDeletion(made[i], x.sats[c], c, x.assets[x.sats[c]].commandId, now)
    && forall j :: 0 <= j < |made| && made[j].id == "DL_" + x.sats[c] ==> j == i
  }

  ghost predicate DropTold(x: Index, c: string, now: int, made: seq<Entry>)
    requires c in x.sats && x.sats[c] in x.assets
  {
    exists i: nat :: DropToldAt(x, c, now, made, i)
  }

  /** Each satellite id no longer listed has exactly one report, and there are no others. */
  ghost predicate DropsTold(x: Index, catalogue: seq<Listing>, now: int, made: seq<Entry>) {
    && (forall c :: c in x.sats && Unlisted(catalogue, c) ==> x.sats[c] in x.assets && DropTold(x, c, now, made))
    && (forall e :: e in made ==> exists c :: c in x.sats && Unlisted(catalogue, c) && e.id == "DL_" + x.sats[c])
  }

  lemma DeletionsTell(x: Index, catalogue: seq<Listing>, ids: seq<string>, now: int)
    requires Indexed(x) && ListDropped(x, Listed(catalogue), ids)
    ensures DropsTold(x, catalogue, now, Deletions(x, ids, now))
  {
    var made := Deletions(x, ids, now);
    DeletionsTellInOrder(x, Listed(catalogue), ids, now);
    forall c | c in x.sats
      ensures Unlisted(catalogue, c) <==> c in ids
    {
      assert c in Listed(catalogue) <==> !Unlisted(catalogue, c);
    }
    forall c | c in x.sats && Unlisted(catalogue, c)
      ensures DropTold(x, c, now, made)
    {
      var i: nat :| i < |ids| && ids[i] == c;
      forall j | 0 <= j < |made| && made[j].id == "DL_" + x.sats[c]
        ensures j == i
      {
        assert made[j].id[3..] == x.sats[ids[j]] && ("DL_" + x.sats[c])[3..] == x.sats[c];
      }
      assert DropToldAt(x, c, now, made, i);
    }
    forall e | e in made
      ensures exists c :: c in x.sats && Unlisted(catalogue, c) && e.id == "DL_" + x.sats[c]
    {
      var i :| 0 <= i < |made| && made[i] == e;
      assert ids[i] in ids && e.id == "DL_" + x.sats[ids[i]];
    }
  }

  /** A report of this listing's content, the only one of it. */
  ghost predicate NewToldAt(meta: Metadata, now: int, made: seq<Entry>, i: nat) {
    && i < |made| && TellsDownload(made[i], meta, now)
    && forall j :: 0 <= j < |made| && made[j].id == made[i].id ==> j == i
  }

  ghost predicate NewTold(meta: Metadata, now: int, made: seq<Entry>) {
    exists i: nat :: NewToldAt(meta, now, made, i)
  }

  /** Each content that was unknown has exactly one report, by the first listing that names it, and there are no
      others. */
  ghost predicate AllNewTold(x: Index, catalogue: seq<Listing>, now: int, made: seq<Entry>) {
    && (forall k: nat :: FirstNamed(catalogue, k) && catalogue[k].meta.contentId !in x.assets ==>
          NewTold(catalogue[k].meta, now, made))
    && (forall e :: e in made ==>
          e.id !in x.assets && exists k: nat :: FirstNamed(catalogue, k) && e.id == catalogue[k].meta.contentId)
  }

  lemma DownloadsTell(x: Index, catalogue: seq<Listing>, now: int)
    ensures AllNewTold(x, catalogue, now, Downloads(x, catalogue, now))
  {
    var made := Downloads(x, catalogue, now);
    DownloadsExactly(x, catalogue, now);
    forall k: nat | FirstNamed(catalogue, k) && catalogue[k].meta.contentId !in x.assets
      ensures NewTold(catalogue[k].meta, now, made)
    {
      var i: nat :| i < |made| && made[i] == DownloadEntry(catalogue[k].meta, now);
      DownloadTells(catalogue[k].meta, now);
      assert NewToldAt(catalogue[k].meta, now, made, i);
    }
  }

  // ----- What a poll reports -----

  /** Exactly the contents that are named and were unknown are reported, each once, as the first listing names it. */
  lemma {:induction false} DownloadsExactly(x: Index, catalogue: seq<Listing>, now: int)
    ensures AllNewReported(x, catalogue, now, Downloads(x, catalogue, now))
    ensures OnlyNewReported(x, catalogue, now, Downloads(x, catalogue, now))
    ensures EachOnce(Downloads(x, catalogue, now))
    ensures IdsOf(Downloads(x, catalogue, now)) == Contents(catalogue) - x.assets.Keys
  {
    if catalogue != [] {
      var init, last := catalogue[..|catalogue| - 1], catalogue[|catalogue| - 1];
      assert catalogue == init + [last];
      DownloadsExactly(x, init, now);
      SyncAllFacts(x, init, now);
      DownloadsLast(x, init, last, now, Downloads(x, init, now));
    }
  }

  ghost predicate EachOnce(entries: seq<Entry>) {
    forall i, j :: 0 <= i < j < |entries| ==> entries[i].id != entries[j].id
  }

  function IdsOf(entries: seq<Entry>): set<string> {
    set e | e in entries :: e.id
  }

  ghost predicate AllNewReported(x: Index, catalogue: seq<Listing>, now: int, made: seq<Entry>) {
    forall k: nat :: FirstNamed(catalogue, k) && catalogue[k].meta.contentId !in x.assets ==>
      DownloadEntry(catalogue[k].meta, now) in made
  }

  ghost predicate OnlyNewReported(x: Index, catalogue: seq<Listing>, now: int, made: seq<Entry>) {
    forall e :: e in made ==>
      e.id !in x.assets && exists k: nat :: FirstNamed(catalogue, k) && e == DownloadEntry(catalogue[k].meta, now)
  }

  lemma DownloadsLast(x: Index, init: seq<Listing>, last: Listing, now: int, made: seq<Entry>)
    requires AllNewReported(x, init, now, made) && OnlyNewReported(x, init, now, made) && EachOnce(made)
    requires IdsOf(made) == Contents(init) - x.assets.Keys
    ensures var isNew := Names(last.meta) && last.meta.contentId !in x.assets.Keys + Contents(init);
            var more := made + if isNew then [DownloadEntry(last.meta, now)] else [];
            && AllNewReported(x, init + [last], now, more) && OnlyNewReported(x, init + [last], now, more)
            && EachOnce(more) && IdsOf(more) == Contents(init + [last]) - x.assets.Keys
  {
    var isNew := Names(last.meta) && last.meta.contentId !in x.assets.Keys + Contents(init);
    var more := made + if isNew then [DownloadEntry(last.meta, now)] else [];
    ContentsSnoc(init, last);
    if isNew {
      assert forall e :: e in more <==> e in made || e == DownloadEntry(last.meta, now);
      OneMoreId(made, DownloadEntry(last.meta, now));
    } else {
      assert more == made;
    }
    AllNewLast(x, init, last, now, made, more);
    OnlyNewLast(x, init, last, now, made, more);
  }

  lemma OneMoreId(made: seq<Entry>, e: Entry)
    requires EachOnce(made) && e.id !in IdsOf(made)
    ensures EachOnce(made + [e]) && IdsOf(made + [e]) == IdsOf(made) + {e.id}
  {
    var more := made + [e];
    assert forall d :: d in more <==> d in made || d == e;
    assert forall i :: 0 <= i < |made| ==> more[i] == made[i] && made[i] in made;
  }

  lemma AllNewLast(x: Index, init: seq<Listing>, last: Listing, now: int, made: seq<Entry>, more: seq<Entry>)
    requires AllNewReported(x, init, now, made) && forall e :: e in made ==> e in more
    requires Names(last.meta) && last.meta.contentId !in x.assets.Keys + Contents(init) ==>
               DownloadEntry(last.meta, now) in more
    ensures AllNewReported(x, init + [last], now, more)
  {
    var catalogue := init + [last];
    FirstNamedEarlier(init, last);
    FirstNamedLast(init, last);
    forall k: nat | FirstNamed(catalogue, k) && catalogue[k].meta.contentId !in x.assets
      ensures DownloadEntry(catalogue[k].meta, now) in more
    {
      if k < |init| {
        assert FirstNamed(init, k) && catalogue[k] == init[k];
      }
    }
  }

  lemma OnlyNewLast(x: Index, init: seq<Listing>, last: Listing, now: int, made: seq<Entry>, more: seq<Entry>)
    requires OnlyNewReported(x, init, now, made)
    requires forall e :: e in more && e !in made ==>
               && Names(last.meta) && last.meta.contentId !in x.assets.Keys + Contents(init)
               && e == DownloadEntry(last.meta, now)
    ensures OnlyNewReported(x, init + [last], now, more)
  {
    var catalogue := init + [last];
    FirstNamedEarlier(init, last);
    FirstNamedLast(init, last);
    forall e | e in more
      ensures e.id !in x.assets
      ensures exists k: nat :: FirstNamed(catalogue, k) && e == DownloadEntry(catalogue[k].meta, now)
    {
      if e in made {
        var k: nat :| FirstNamed(init, k) && e == DownloadEntry(init[k].meta, now);
        assert FirstNamed(catalogue, k) && catalogue[k] == init[k];
      } else {
        assert FirstNamed(catalogue, |init|) && catalogue[|init|] == last;
      }
    }
  }

  lemma ContentsSnoc(init: seq<Listing>, last: Listing)
    ensures Contents(init + [last]) == Contents(init) + if Names(last.meta) then {last.meta.contentId} else {}
  {
    assert forall l :: l in init + [last] <==> l in init || l == last;
  }
}
