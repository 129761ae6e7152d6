/** What the outbox does not promise, and exactly when: a repeated delivery, and a put that is lost. */
module OutboxLaws {
  import opened OutboxModel
  import opened Batching
  import opened Accounts
  import opened Fates
  import opened OutboxSteps

  /** The messages a round sends about an entry due on both channels, which go out at `first` and `second`. */
  ghost predicate GoesOutTwice(e: Entry, messages: seq<Message>, base: nat, first: nat, second: nat) {
    && base <= first < second < |messages| && SentOnce(e, messages[base..])
    && About(messages, first, e.id) && About(messages, second, e.id)
    && messages[first].channel != messages[second].channel
    && forall i: nat :: base <= i && About(messages, i, e.id) ==> !messages[i].channel.Direct?
  }

  /** There are no others about it. */
  lemma TwoMessages(e: Entry, messages: seq<Message>, base: nat, first: nat, second: nat)
    requires GoesOutTwice(e, messages, base, first, second)
    ensures forall i: nat :: base <= i ==> (About(messages, i, e.id) <==> i == first || i == second)
  {
    var sent := messages[base..];
    forall i: nat | base <= i && About(messages, i, e.id)
      ensures i == first || i == second
    {
      var k := if messages[i].channel == messages[first].channel then first else second;
      assert CarriedBy(sent, i - base, e.id, messages[i].channel);
      assert CarriedBy(sent, k - base, e.id, messages[i].channel);
    }
  }

  /** So an entry put over one due on both channels is stored after the round exactly if it was put after the second
      answer, or between the two, the first being a refusal and the second an acceptance. Put before both answers it is
      always lost. */
  lemma PutStoredIff(e: Entry, base: Log, p: Pending, l: Log, q: nat, first: nat, second: nat)
    requires Outcome(e, base, p, l) && IsContent(e.kind) && LastPutOf(base, l, e.id, q)
    requires GoesOutTwice(e, l.sent, |base.sent|, first, second) && |base.sent| <= l.puts[q].dealt
    ensures StoredPut(p, l, q) <==>
            || second < l.puts[q].dealt
            || (first < l.puts[q].dealt && !l.sent[first].ok && l.sent[second].ok)
  {
    TwoMessages(e, l.sent, |base.sent|, first, second);
    assert !l.sent[first].ok ==> RefusedAt(l.sent, first, e.id);
  }

  /** A stop after an accepted first answer leaves that channel due, where going on to an acceptance by the other would
      have finished the entry. */
  lemma StopAfterFirstAcceptance(pt: Point, base: Log, l0: Log, init: seq<Entry>, m: Message, j: nat)
    requires AccountedPoint(pt, base, l0, init) && AnsweredSince(|l0.sent|, pt.log) == [m] && j < |init|
    requires m.ok && !m.channel.Direct? && init[j].id in m.ids
    requires NoPutStored(base, pt.pending, pt.log, init[j].id) && init[j].cloud && init[j].iot
    ensures init[j].id in pt.pending && Flag(pt.pending[init[j].id], m.channel)
  {
    var e := init[j];
    assert EntrySoFar(e, base, |l0.sent|, pt.pending, pt.log);
    assert Handled(e, [m], pt.pending);
    var other := if m.channel.Cloud? then IoT else Cloud;
    assert Flag(e, other) && !Accepted([m], e.id, other);
    assert StillDue(e, [m]);
  }

  // ----- The asset map -----

  datatype Info = Unreadable | Info(downloadTime: int)

  /** `order` reports readable assets, none of them twice. */
  ghost predicate Reports(assets: map<string, Info>, order: seq<Content>) {
    && (forall i :: 0 <= i < |order| ==>
          && order[i].ContentData? && order[i].contentId in assets && assets[order[i].contentId].Info?
          && order[i].time == assets[order[i].contentId].downloadTime)
    && (forall i, j :: 0 <= i < j < |order| ==> order[i] != order[j])
  }

  /** `order` reports all the given assets. */
  ghost predicate Covers(assets: map<string, Info>, ids: set<string>, order: seq<Content>) {
    forall id :: id in ids ==> id in assets && assets[id].Info? && ContentData(id, assets[id].downloadTime) in order
  }

  /** Reports every stored asset in batches, giving up at the first unreadable asset or refused batch; `sent` includes
      the refused one. */
  method SendAssetmapInBatches(assets: map<string, Info>, size: nat)
    returns (ok: bool, refused: bool, sent: seq<seq<Content>>)
    requires size > 0
    ensures Reports(assets, Concat(sent)) && Bounded(sent, size)
    ensures ok <==> !refused && forall id :: id in assets ==> assets[id].Info?
    ensures ok ==> Covers(assets, assets.Keys, Concat(sent)) && sent == Batches(Concat(sent), size)
  {
    sent, refused := [], false;
    var batch: seq<Content> := [];
    ghost var order: seq<Content> := [];
    var left := assets.Keys;
    while left != {}
      invariant left <= assets.Keys && !refused
      invariant Reports(assets, order) && Covers(assets, assets.Keys - left, order)
      invariant forall i :: 0 <= i < |order| ==> order[i].contentId !in left
      invariant Filling(sent, batch, order, size) && |batch| < size
    {
      var id :| id in left;
      FillSoFar(sent, batch, order, size);
      if assets[id].Unreadable? {
        PrefixReports(assets, order, Concat(sent));
        return false, refused, sent;
      }
      var content := ContentData(id, assets[id].downloadTime);
      FillMore(sent, batch, order, content, size);
      ReportMore(assets, assets.Keys - left, order, id);
      batch := batch + [content];
      order := order + [content];
      left := left - {id};
      assert assets.Keys - left == assets.Keys - (left + {id}) + {id};
      if |batch| == size {
        refused, sent := SendAssets(assets, size, sent, batch, order);
        if refused {
          return false, refused, sent;
        }
        batch := [];
      }
    }
    FillEnd(sent, batch, order, size);
    BatchesCover(order, size);
    if |batch| > 0 {
      refused := *;
      sent := sent + [batch];
      if refused {
        return false, refused, sent;
      }
    }
    return true, refused, sent;
  }

  /** One full batch goes out. */
  method SendAssets(assets: map<string, Info>, size: nat, sent: seq<seq<Content>>, batch: seq<Content>,
                    ghost order: seq<Content>)
    returns (refused: bool, sent': seq<seq<Content>>)
    requires size > 0 && |batch| == size && Filling(sent, batch, order, size) && Reports(assets, order)
    ensures sent' == sent + [batch] && Filling(sent', [], order, size)
    ensures Bounded(sent', size) && Reports(assets, Concat(sent'))
  {
    FillFlush(sent, batch, order, size);
    FillSoFar(sent + [batch], [], order, size);
    PrefixReports(assets, order, Concat(sent + [batch]));
    refused := *;
    return refused, sent + [batch];
  }

  lemma PrefixReports(assets: map<string, Info>, order: seq<Content>, prefix: seq<Content>)
    requires Reports(assets, order) && prefix <= order
    ensures Reports(assets, prefix)
  {
    assert forall i :: 0 <= i < |prefix| ==> prefix[i] == order[i];
  }

  lemma ReportMore(assets: map<string, Info>, ids: set<string>, order: seq<Content>, id: string)
    requires Reports(assets, order) && Covers(assets, ids, order)
    requires id in assets && assets[id].Info? && forall i :: 0 <= i < |order| ==> order[i].contentId != id
    ensures Reports(assets, order + [ContentData(id, assets[id].downloadTime)])
    ensures Covers(assets, ids + {id}, order + [ContentData(id, assets[id].downloadTime)])
  {
    var more := order + [ContentData(id, assets[id].downloadTime)];
    forall x | x in ids + {id}
      ensures x in assets && assets[x].Info? && ContentData(x, assets[x].downloadTime) in more
    {
      if x == id {
        assert more[|order|] == ContentData(id, assets[id].downloadTime);
      }
    }
  }
}
