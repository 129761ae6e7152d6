/** The telemetry handler over the pending bucket; other goroutines put entries between any two of its steps. */
module Outbox {
  import opened OutboxModel
  import opened Payload
  import opened Batching
  import opened Accounts
  import opened Fates
  import opened Sources
  import opened OutboxSteps
  import opened Rounds

  // ----- Steps on the copies -----

  method SetTelemetryFlag(recs: array<Entry>, batch: seq<nat>, ch: Channel)
    requires BatchOk(recs[..], batch, ch)
    modifies recs
    ensures recs[..] == ClearAt(old(recs[..]), batch, ch)
    ensures forall j :: 0 <= j < recs.Length ==>
              recs[j] == if j !in batch then old(recs[j])
                         else if ch.Cloud? then old(recs[j]).(cloud := false)
                         else old(recs[j]).(iot := false)
  {
    var i := 0;
    while i < |batch|
      invariant 0 <= i <= |batch|
      invariant recs[..] == ClearAt(old(recs[..]), batch[..i], ch)
    {
      assert batch[i] !in batch[..i];
      assert forall j :: j in batch[..i + 1] <==> j in batch[..i] || j == batch[i];
      if ch.Cloud? {
        recs[batch[i]] := recs[batch[i]].(cloud := false);
      } else {
        recs[batch[i]] := recs[batch[i]].(iot := false);
      }
      i := i + 1;
    }
    assert batch[..i] == batch;
  }

  method IncrementRetryCount(recs: array<Entry>, batch: seq<nat>, ghost ch: Channel)
    requires BatchOk(recs[..], batch, ch)
    modifies recs
    ensures recs[..] == BumpAt(old(recs[..]), batch)
    ensures forall j :: 0 <= j < recs.Length ==>
              recs[j] == if j !in batch then old(recs[j]) else old(recs[j]).(retries := old(recs[j]).retries + 1)
  {
    var i := 0;
    while i < |batch|
      invariant 0 <= i <= |batch|
      invariant recs[..] == BumpAt(old(recs[..]), batch[..i])
    {
      assert batch[i] !in batch[..i];
      assert forall j :: j in batch[..i + 1] <==> j in batch[..i] || j == batch[i];
      recs[batch[i]] := recs[batch[i]].(retries := recs[batch[i]].retries + 1);
      i := i + 1;
    }
    assert batch[..i] == batch;
  }

  /** The keys of a batch's copies that have no flag left. */
  method GetIdsToBeRemoved(recs: array<Entry>, batch: seq<nat>) returns (ids: set<string>)
    requires forall i :: 0 <= i < |batch| ==> batch[i] < recs.Length
    ensures ids == Finished(recs[..], batch)
    ensures forall k :: k in ids <==>
              exists j :: 0 <= j < recs.Length && j in batch && !recs[j].cloud && !recs[j].iot && recs[j].id == k
  {
    ids := {};
    var i := 0;
    while i < |batch|
      invariant 0 <= i <= |batch|
      invariant ids == Finished(recs[..], batch[..i])
    {
      assert forall j :: j in batch[..i + 1] <==> j in batch[..i] || j == batch[i];
      assert recs[..][batch[i]] == recs[batch[i]];
      if !recs[batch[i]].cloud && !recs[batch[i]].iot {
        ids := ids + {recs[batch[i]].id};
      }
      i := i + 1;
    }
    assert batch[..i] == batch;
  }

  class Outbox {
    /** Which kind of entry a bucket key belongs to: keys of different kinds do not collide. */
    const kindOf: string -> Kind
    var pending: Pending

    ghost var log: Log
    ghost var points: seq<Point>

    ghost predicate Valid()
      reads this
    {
      Good(pending, log, kindOf) && Sourced(pending, log) && AllRestartable(points, kindOf)
    }

    /** Opens a new bucket, or one left behind by a stop; retry counts are followed from here on. */
    constructor Open(kindOf: string -> Kind, stored: Pending, ghost before: Log)
      requires Restartable(Point(stored, before), kindOf)
      ensures Valid() && this.kindOf == kindOf && pending == stored && Idle(log)
      ensures log.sent == before.sent && log.puts == before.puts && log.lost == before.lost
    {
      this.kindOf := kindOf;
      pending := stored;
      log := Reopened(stored, before);
      points := [];
      new;
      ReopenedGood(stored, before, kindOf);
    }

    ghost method Mark()
      requires Valid()
      modifies this`points
      ensures Valid() && points == old(points) + [Point(pending, log)]
    {
      points := points + [Point(pending, log)];
    }

    /** One put by another goroutine: AddContent, AddProvisionedStatus or AddCommandStatus. */
    method Put(key: string, e: Entry)
      requires Valid() && StoredUnder(e, key) && kindOf(key) == e.kind && Fresh(e)
      modifies this
      ensures Valid() && points == old(points) + [Point(pending, log)]
      ensures pending == old(pending)[key := e] && log == AfterPut(old(log), e)
    {
      KeyIs(e, key);
      PutKeepsGood(pending, log, kindOf, e);
      PutKeepsSourced(pending, log, kindOf, e);
      log := AfterPut(log, e);
      pending := pending[key := e];
      Mark();
    }

    /** Any number of puts by others, between two steps of the handler. */
    method Others()
      requires Valid()
      modifies this
      ensures Valid() && old(points) <= points
      ensures Interfered(old(pending), old(log), pending, log)
      ensures forall i :: |old(points)| <= i < |points| ==>
                Interfered(old(pending), old(log), points[i].pending, points[i].log)
    {
      ghost var p, l, marks := pending, log, |points|;
      NotInterfered(p, l);
      var n :| 0 <= n;
      for _ := 0 to n
        invariant Valid() && old(points) <= points && marks <= |points|
        invariant Interfered(p, l, pending, log)
        invariant forall i :: marks <= i < |points| ==> Interfered(p, l, points[i].pending, points[i].log)
      {
        var e: Entry := *;
        if kindOf(Key(e)) == e.kind && Fresh(e) {
          InterferedSnoc(p, l, pending, log, e);
          KeyIs(e, Key(e));
          Put(Key(e), e);
        }
      }
    }

    /** The transaction writing a batch's copies back, one put per entry. */
    method AddContents(recs: array<Entry>, batch: seq<nat>)
      requires forall i :: 0 <= i < |batch| ==> batch[i] < recs.Length
      requires forall i, j :: 0 <= i < j < recs.Length ==> recs[i].id != recs[j].id
      modifies this`pending
      ensures WrittenBack(recs[..], batch, old(pending), pending)
    {
      var i := 0;
      while i < |batch|
        invariant 0 <= i <= |batch|
        invariant WrittenBack(recs[..], batch[..i], old(pending), pending)
      {
        ghost var before := pending;
        pending := pending[recs[batch[i]].id := recs[batch[i]]];
        OneWrittenBack(recs[..], batch, i, old(pending), before, pending);
        i := i + 1;
      }
      assert batch[..i] == batch;
    }

    /** After a batch has been answered: lower flags and delete what is finished, or count the retry and write back. */
    method AddBackOrDelete(ok: bool, recs: array<Entry>, batch: seq<nat>, ch: Channel)
      requires Valid() && CopiesOk(recs[..], pending, log, kindOf) && BatchOk(recs[..], batch, ch)
      requires ok ==> log.inFlight == {} && BatchAccepted(recs[..], batch, ch, log)
      requires !ok ==> log.inFlight == BatchKeys(recs[..], batch)
      requires Awaited(log, BatchKeys(recs[..], batch))
      modifies this, recs
      ensures Valid() && log == AfterAnswer(old(log), AnswerKeys(recs[..], batch, ok))
      ensures points == old(points) + [Point(pending, log)]
      ensures recs[..] == Answered(old(recs[..]), batch, ch, ok)
      ensures CopiesOk(recs[..], pending, log, kindOf)
      ensures BucketAfter(old(recs[..]), batch, ch, ok, old(pending), pending)
    {
      ghost var copies := recs[..];
      if ok {
        SetTelemetryFlag(recs, batch, ch);
        var ids := GetIdsToBeRemoved(recs, batch);
        pending := pending - ids;
      } else {
        IncrementRetryCount(recs, batch, ch);
        assert forall j :: 0 <= j < recs.Length ==> recs[..][j] == recs[j];
        AddContents(recs, batch);
      }
      AnswerKeepsGood(copies, batch, ch, ok, old(pending), pending, log, kindOf);
      AnswerSourced(copies, batch, ch, ok, old(pending), pending, log, kindOf);
      log := AfterAnswer(log, AnswerKeys(recs[..], batch, ok));
      Mark();
    }

    /** Others put, then one batch goes out. */
    method Send(ch: Channel, recs: array<Entry>, batch: seq<nat>, payload: seq<Content>)
      returns (ok: bool, ghost m: Message)
      requires Valid() && Idle(log) && !ch.Direct?
      requires CopiesOk(recs[..], pending, log, kindOf) && BatchOk(recs[..], batch, ch)
      modifies this
      ensures Valid() && old(points) <= points && CopiesOk(recs[..], pending, log, kindOf)
      ensures m == Message(ch, IdsAt(recs[..], batch), payload, ok)
      ensures PutsOnly(old(pending), old(log), pending, log) && log.sent == old(log.sent) + [m]
      ensures log.inFlight == if ok then {} else BatchKeys(recs[..], batch)
      ensures Awaited(log, BatchKeys(recs[..], batch))
      ensures ok ==> BatchAccepted(recs[..], batch, ch, log)
      ensures forall i :: |old(points)| <= i < |points| ==> BeforeAnswer(points[i], old(pending), old(log), m)
    {
      ghost var p0, l0, copies := pending, log, recs[..];
      Others();
      InterferenceKeepsCopies(copies, p0, l0, pending, log, kindOf);
      ok := *;
      m := Message(ch, IdsAt(copies, batch), payload, ok);
      BatchIds(copies, batch, ch);
      SendKeepsGood(copies, batch, pending, log, kindOf, m);
      SendKeepsCopies(copies, batch, pending, log, kindOf, m);
      MessageSent(p0, l0, pending, log, m);
      SameSources(pending, log, pending, AfterSend(log, m));
      log := AfterSend(log, m);
      Mark();
    }

    /** One batch goes out, and others put before and after that. */
    method SendAmidPuts(ch: Channel, recs: array<Entry>, batch: seq<nat>, payload: seq<Content>)
      returns (ok: bool, ghost m: Message)
      requires Valid() && Idle(log) && !ch.Direct?
      requires CopiesOk(recs[..], pending, log, kindOf) && BatchOk(recs[..], batch, ch)
      modifies this
      ensures Valid() && old(points) <= points && CopiesOk(recs[..], pending, log, kindOf)
      ensures m == Message(ch, IdsAt(recs[..], batch), payload, ok)
      ensures PutsOnly(old(pending), old(log), pending, log) && log.sent == old(log.sent) + [m]
      ensures log.inFlight == if ok then {} else BatchKeys(recs[..], batch)
      ensures Awaited(log, BatchKeys(recs[..], batch))
      ensures ok ==> BatchAccepted(recs[..], batch, ch, log)
      ensures forall i :: |old(points)| <= i < |points| ==> BeforeAnswer(points[i], old(pending), old(log), m)
    {
      ghost var p0, l0, copies := pending, log, recs[..];
      ok, m := Send(ch, recs, batch, payload);
      ghost var p, l, middle := pending, log, |points|;
      Others();
      PutsTwice(p0, l0, p, l, pending, log);
      PointsAfterSend(points, middle, p0, l0, p, l, m);
      InterferenceKeepsCopies(copies, p, l, pending, log, kindOf);
    }

    /** Sends one batch on one channel and deals with the answer; (p1, l1) is the moment just before it is dealt
        with. */
    method Flush(ch: Channel, recs: array<Entry>, batch: seq<nat>, payload: seq<Content>)
      returns (ghost m: Message, ghost p1: Pending, ghost l1: Log)
      requires Valid() && Idle(log) && !ch.Direct?
      requires CopiesOk(recs[..], pending, log, kindOf) && BatchOk(recs[..], batch, ch)
      modifies this, recs
      ensures Valid() && old(points) <= points
      ensures m.channel == ch && m.ids == IdsAt(old(recs[..]), batch) && m.payload == payload
      ensures PutsOnly(old(pending), old(log), p1, l1) && l1.sent == old(log.sent) + [m]
      ensures PutsOk(l1, kindOf) && CopiesOk(old(recs[..]), p1, l1, kindOf)
      ensures recs[..] == Answered(old(recs[..]), batch, ch, m.ok) && CopiesOk(recs[..], pending, log, kindOf)
      ensures BucketAfter(old(recs[..]), batch, ch, m.ok, p1, pending)
      ensures log == AfterAnswer(l1, AnswerKeys(recs[..], batch, m.ok))
      ensures forall i :: |old(points)| <= i < |points| ==>
                BeforeAnswer(points[i], old(pending), old(log), m) || points[i] == Point(pending, log)
    {
      ghost var copies := recs[..];
      var ok;
      ok, m := SendAmidPuts(ch, recs, batch, payload);
      p1, l1 := pending, log;
      assert recs[..] == copies && PutsOk(l1, kindOf);
      AddBackOrDelete(ok, recs, batch, ch);
    }

    /** Sends the entries of one content kind, on both channels side by side. Each channel fills its own batch of
        pointers into the shared copies and flushes it when it is full, and once more at the end. */
    method SendRequestInBatches(recs: array<Entry>, size: nat, ghost kind: Kind, ghost base: Log)
      requires Valid() && Idle(log) && size > 0 && IsContent(kind)
      requires KindOk(recs[..], kind, pending, log, base, kindOf)
      modifies this, recs
      ensures Valid() && Idle(log) && old(points) <= points
      ensures Elsewhere(old(pending), old(log), pending, log, KeysOf(old(recs[..])))
      ensures SentInBatches(old(recs[..]), SentSince(old(log), log), size)
      ensures Told(old(recs[..]), SentSince(old(log), log))
      ensures NothingNew(old(pending), old(log), pending, log)
      ensures GroupDone(old(recs[..]), base, pending, log)
      ensures forall i :: |old(points)| <= i < |points| ==>
                AccountedPoint(points[i], base, old(log), old(recs[..]))
    {
      ghost var o := Origin(pending, log, |points|, recs[..], kind, base);
      ghost var answered: seq<Message>;
      var cloud, cloudData, iot, iotData;
      cloud, cloudData, iot, iotData, answered := VisitEntries(recs, size, o);
      answered := FlushBoth(recs, size, cloud, cloudData, iot, iotData, o, answered);
      assert SentSince(o.log, log) == answered;
      BothLanesDone(o, pending, log, recs[..], answered, size);
      ContentsDone(o, pending, log, recs[..], answered);
    }

    /** The loop over the entries. */
    method VisitEntries(recs: array<Entry>, size: nat, ghost o: Origin)
      returns (cloud: seq<nat>, cloudData: seq<Content>, iot: seq<nat>, iotData: seq<Content>,
               ghost answered: seq<Message>)
      requires Valid() && Idle(log) && size > 0 && IsContent(o.kind)
      requires o == Origin(pending, log, |points|, recs[..], o.kind, o.base)
      requires KindOk(recs[..], o.kind, pending, log, o.base, kindOf)
      modifies this, recs
      ensures InLoop(o, recs[..], answered, recs.Length, cloud, cloudData, iot, iotData, size)
      ensures old(points) <= points
    {
      answered := [];
      cloud, cloudData, iot, iotData := [], [], [], [];
      Begin(o, size);
      var i := 0;
      while i < recs.Length
        invariant 0 <= i <= recs.Length && |o.init| == recs.Length
        invariant InLoop(o, recs[..], answered, i, cloud, cloudData, iot, iotData, size)
        invariant old(points) <= points
      {
        cloud, cloudData, iot, iotData, answered :=
          VisitEntry(recs, size, i, cloud, cloudData, iot, iotData, o, answered);
        i := i + 1;
      }
    }

    /** The two flushes after the loop. */
    method FlushBoth(recs: array<Entry>, size: nat, cloud: seq<nat>, cloudData: seq<Content>, iot: seq<nat>,
                     iotData: seq<Content>, ghost o: Origin, ghost answered: seq<Message>)
      returns (ghost more: seq<Message>)
      requires InLoop(o, recs[..], answered, |o.init|, cloud, cloudData, iot, iotData, size)
      modifies this, recs
      ensures InProgress(o, recs[..], more) && old(points) <= points
      ensures LaneDone(o.init, Cloud, more, size) && LaneDone(o.init, IoT, more, size)
    {
      more := FlushRest(Cloud, recs, size, cloud, cloudData, o, answered, IoT, iot, iotData, false);
      more := FlushRest(IoT, recs, size, iot, iotData, o, more, Cloud, [], [], true);
    }

    ghost predicate InLoop(o: Origin, copies: seq<Entry>, answered: seq<Message>, i: nat, cloud: seq<nat>,
                           cloudData: seq<Content>, iot: seq<nat>, iotData: seq<Content>, size: nat)
      requires i <= |o.init|
      reads this
    {
      && InProgress(o, copies, answered) && Reached(o.init, copies, i)
      && Lane(o.init, copies, i, Cloud, cloud, cloudData, answered, size) && |cloud| < size
      && Lane(o.init, copies, i, IoT, iot, iotData, answered, size) && |iot| < size
    }

    /** One entry joins the batch of a channel it is due on: a pointer to it, and what is to be said of it. */
    method Gather(ch: Channel, recs: array<Entry>, size: nat, i: nat, batch: seq<nat>, payload: seq<Content>,
                  ghost o: Origin, ghost answered: seq<Message>)
      returns (batch': seq<nat>, payload': seq<Content>)
      requires !ch.Direct? && i < recs.Length == |o.init| && Reached(o.init, recs[..], i) && |batch| < size
      requires Lane(o.init, recs[..], i, ch, batch, payload, answered, size)
      ensures Lane(o.init, recs[..], i + 1, ch, batch', payload', answered, size)
    {
      var data := recs[i];
      assert data == recs[..][i] == o.init[i];
      LaneAdd(o.init, recs[..], i, ch, batch, payload, answered, size);
      if (ch.Cloud? && data.cloud) || (ch.IoT? && data.iot) {
        var content := ContentOf(data, ch);
        return batch + [i], payload + [content];
      }
      return batch, payload;
    }

    /** The loop body: one entry joins the batch of each channel it is due on; full batches are flushed. */
    method VisitEntry(recs: array<Entry>, size: nat, i: nat, cloud: seq<nat>, cloudData: seq<Content>, iot: seq<nat>,
                      iotData: seq<Content>, ghost o: Origin, ghost answered: seq<Message>)
      returns (cloud': seq<nat>, cloudData': seq<Content>, iot': seq<nat>, iotData': seq<Content>,
               ghost more: seq<Message>)
      requires i < recs.Length == |o.init|
      requires InLoop(o, recs[..], answered, i, cloud, cloudData, iot, iotData, size)
      modifies this, recs
      ensures InLoop(o, recs[..], more, i + 1, cloud', cloudData', iot', iotData', size)
      ensures old(points) <= points
    {
      cloud', cloudData' := Gather(Cloud, recs, size, i, cloud, cloudData, o, answered);
      iot', iotData' := Gather(IoT, recs, size, i, iot, iotData, o, answered);
      assert Reached(o.init, recs[..], i + 1);
      cloud', cloudData', more :=
        FlushIfFull(Cloud, recs, size, cloud', cloudData', o, i + 1, answered, IoT, iot', iotData');
      iot', iotData', more :=
        FlushIfFull(IoT, recs, size, iot', iotData', o, i + 1, more, Cloud, cloud', cloudData');
    }

    /** Where the batching stands: what has been sent, what the answers so far have left in the bucket of the copied
        entries and of entries put over them, and what a stop at any moment since the start would have left there. */
    ghost predicate InProgress(o: Origin, copies: seq<Entry>, answered: seq<Message>)
      reads this
    {
      && Valid() && Idle(log)
      && CopiesOk(copies, pending, log, kindOf)
      && SoFar(o, copies, answered, pending, log) && Told(o.init, answered)
      && PointsAccounted(points, o)
    }

    /** One flush within the batching. */
    method FlushOne(ch: Channel, recs: array<Entry>, batch: seq<nat>, payload: seq<Content>, ghost o: Origin,
                    ghost answered: seq<Message>)
      returns (ghost m: Message)
      requires InProgress(o, recs[..], answered) && !ch.Direct? && BatchOk(recs[..], batch, ch)
      requires BatchTells(o.init, batch, ch, payload)
      modifies this, recs
      ensures InProgress(o, recs[..], answered + [m]) && old(points) <= points
      ensures m.channel == ch && m.ids == IdsAt(old(recs[..]), batch) && m.payload == payload
      ensures recs[..] == Answered(old(recs[..]), batch, ch, m.ok)
    {
      ghost var p, l, copies, marks, p1, l1 := pending, log, recs[..], points, pending, log;
      m, p1, l1 := Flush(ch, recs, batch, payload);
      SoFarStep(o, p, l, p1, l1, pending, log, copies, batch, m, answered, kindOf);
      MorePoints(marks, points, o, p, l, copies, m, answered, pending, log, recs[..]);
      BatchTold(o, copies, batch, m, answered);
    }

    /** The flush in the batching loop: a full batch is sent and its lane emptied. */
    method FlushIfFull(ch: Channel, recs: array<Entry>, size: nat, batch: seq<nat>, payload: seq<Content>,
                       ghost o: Origin, ghost i: nat, ghost answered: seq<Message>,
                       ghost ch': Channel, ghost batch': seq<nat>, ghost payload': seq<Content>)
      returns (left: seq<nat>, leftPayload: seq<Content>, ghost more: seq<Message>)
      requires InProgress(o, recs[..], answered) && !ch.Direct? && ch' != ch && i <= |o.init|
      requires size > 0 && Reached(o.init, recs[..], i)
      requires Lane(o.init, recs[..], i, ch, batch, payload, answered, size)
      requires Lane(o.init, recs[..], i, ch', batch', payload', answered, size)
      modifies this, recs
      ensures InProgress(o, recs[..], more) && old(points) <= points && Reached(o.init, recs[..], i)
      ensures Lane(o.init, recs[..], i, ch, left, leftPayload, more, size) && |left| < size
      ensures Lane(o.init, recs[..], i, ch', batch', payload', more, size)
    {
      if |batch| == size {
        ghost var before := recs[..];
        ghost var m := FlushOne(ch, recs, batch, payload, o, answered);
        ReachedAnswered(o.init, before, i, batch, ch, m.ok);
        LaneFlush(o.init, before, i, ch, batch, payload, answered, size, m);
        LaneOther(o.init, before, i, ch', batch', payload', answered, size, batch, m);
        return [], [], answered + [m];
      }
      return batch, payload, answered;
    }

    /** The flush after the loop: what is left in a lane is sent. */
    method FlushRest(ch: Channel, recs: array<Entry>, size: nat, batch: seq<nat>, payload: seq<Content>,
                     ghost o: Origin, ghost answered: seq<Message>,
                     ghost ch': Channel, ghost batch': seq<nat>, ghost payload': seq<Content>, ghost done': bool)
      returns (ghost more: seq<Message>)
      requires InProgress(o, recs[..], answered) && !ch.Direct? && ch' != ch && size > 0
      requires Lane(o.init, recs[..], |o.init|, ch, batch, payload, answered, size) && |batch| < size
      requires if done' then LaneDone(o.init, ch', answered, size)
               else Lane(o.init, recs[..], |o.init|, ch', batch', payload', answered, size)
      modifies this, recs
      ensures InProgress(o, recs[..], more) && old(points) <= points
      ensures LaneDone(o.init, ch, more, size)
      ensures if done' then LaneDone(o.init, ch', more, size)
              else Lane(o.init, recs[..], |o.init|, ch', batch', payload', more, size)
    {
      ghost var before := recs[..];
      if |batch| > 0 {
        ghost var m := FlushOne(ch, recs, batch, payload, o, answered);
        LaneEnd(o.init, before, ch, batch, payload, answered, size, m);
        if done' {
          LaneDoneOther(o.init, ch', answered, size, m);
        } else {
          LaneOther(o.init, before, |o.init|, ch', batch', payload', answered, size, batch, m);
        }
        return answered + [m];
      }
      LaneEnd(o.init, before, ch, batch, payload, answered, size, Message(ch, IdsAt(before, batch), payload, true));
      return answered;
    }

    // ----- The kinds that are sent one by one -----

    /** One provisioning or filter-update request: sent, and put back with one more retry if the send fails; others may
        put before and after either. */
    method SendRequest(e: Entry, ghost o: Origin, ghost oks: seq<bool>) returns (ok: bool, key: string)
      requires |oks| < |o.init| && e == o.init[|oks|]
      requires DirectProgress(o, oks) && AreDirect(o.init, o.kind, kindOf) && Key(e) in o.pending
      modifies this
      ensures DirectProgress(o, oks + [ok]) && old(points) <= points
      ensures log.sent == old(log.sent) + [RequestMessage(e, ok)]
      ensures key == Key(e) && StoredUnder(e, key)
      ensures !ok ==> key in pending && pending[key] == e.(retries := e.retries + 1)
    {
      var content;
      key, content := RequestOf(e);
      ok := LogRequest(e, key, content, o, oks);
      ghost var p, l, more := pending, log, [RequestMessage(e, ok)];
      Others();
      DirectKept(o, oks, more, p, l, pending, log);
      ghost var p1, l1 := pending, log;
      Requeue(e, key, ok);
      DirectStep(o, oks, e, key, ok, p1, l1, pending, log, kindOf);
    }

    /** A refused request is put back with one more retry; an accepted one stays where it is until the end. */
    method Requeue(e: Entry, key: string, ok: bool)
      requires Valid() && log.settled < |log.sent| && IsDirect(e, e.kind, kindOf) && StoredUnder(e, key)
      modifies this
      ensures Valid() && points == old(points) + [Point(pending, log)]
      ensures pending == if ok then old(pending) else old(pending)[key := e.(retries := e.retries + 1)]
      ensures log == old(log).(settled := old(log).settled + 1)
    {
      ghost var p, l := pending, log;
      KeyIs(e, key);
      if !ok {
        pending := pending[key := e.(retries := e.retries + 1)];
      }
      log := log.(settled := log.settled + 1);
      DirectSettled(p, l, pending, log, e, ok, kindOf);
      Mark();
    }

    /** Others put, then the request's message goes out. */
    method LogRequest(e: Entry, key: string, content: Content, ghost o: Origin, ghost oks: seq<bool>)
      returns (ok: bool)
      requires key == Key(e) && content == PayloadOf(e, Direct)
      requires |oks| < |o.init| && e == o.init[|oks|]
      requires DirectProgress(o, oks) && AreDirect(o.init, o.kind, kindOf)
      modifies this
      ensures Valid() && DirectAccount(o, oks, [RequestMessage(e, ok)], pending, log) && old(points) <= points
      ensures log.sent == old(log.sent) + [RequestMessage(e, ok)]
    {
      ghost var p, l := pending, log;
      Others();
      DirectKept(o, oks, [], p, l, pending, log);
      ok := *;
      DirectSent(o, oks, ok, pending, log);
      NoteSent(Message(Direct, [key], [content], ok));
    }

    /** A message about a request is on record. */
    ghost method NoteSent(m: Message)
      requires Valid() && forall k :: k in m.ids ==> !IsContent(kindOf(k))
      modifies this`log, this`points
      ensures Valid() && points == old(points) + [Point(pending, log)]
      ensures log == old(log).(sent := old(log).sent + [m])
    {
      DirectSendKeepsGood(pending, log, kindOf, m);
      SameSources(pending, log, pending, log.(sent := log.sent + [m]));
      log := log.(sent := log.sent + [m]);
      Mark();
    }

    ghost predicate DirectProgress(o: Origin, oks: seq<bool>)
      requires |oks| <= |o.init|
      reads this
    {
      Valid() && DirectAccount(o, oks, [], pending, log)
    }

    /** Handles the provisioning or the filter-update requests; what was accepted is deleted in one go at the end. */
    method HandleDirect(data: seq<Entry>, ghost kind: Kind, ghost base: Log) returns (ghost oks: seq<bool>)
      requires Valid() && Idle(log) && !IsContent(kind) && KindOk(data, kind, pending, log, base, kindOf)
      modifies this
      ensures Valid() && Idle(log) && old(points) <= points
      ensures Elsewhere(old(pending), old(log), pending, log, KeysOf(data))
      ensures |oks| == |data| && log.sent == old(log.sent) + DirectMessages(data, oks)
      ensures NothingNew(old(pending), old(log), pending, log)
      ensures GroupDone(data, base, pending, log)
      ensures Told(data, SentSince(old(log), log)) && RequestsKept(data, oks, base, pending, log)
    {
      ghost var o := Origin(pending, log, |points|, data, kind, base);
      DirectBegin(o);
      oks := [];
      var deleteIds: set<string> := {};
      var i := 0;
      while i < |data|
        invariant 0 <= i <= |data| && |oks| == i
        invariant DirectProgress(o, oks) && old(points) <= points
        invariant deleteIds == KeysAnswered(data, oks, true)
      {
        var ok, key := SendRequest(data[i], o, oks);
        KeysAnsweredSnoc(data, oks, ok);
        oks := oks + [ok];
        if ok {
          deleteIds := deleteIds + {key};
        }
        i := i + 1;
      }
      DeleteAccepted(deleteIds, o, oks);
      RequestsAreKept(o, oks, pending, log);
    }

    method DeleteAccepted(deleteIds: set<string>, ghost o: Origin, ghost oks: seq<bool>)
      requires |oks| == |o.init| && DirectProgress(o, oks) && AreDirect(o.init, o.kind, kindOf)
      requires deleteIds == KeysAnswered(o.init, oks, true)
      requires GroupUntouched(o.init, o.base, o.pending, o.log) && Idle(o.log)
      modifies this
      ensures Valid() && Idle(log) && old(points) <= points && log.sent == old(log.sent)
      ensures Elsewhere(o.pending, o.log, pending, log, KeysOf(o.init))
      ensures NothingNew(o.pending, o.log, pending, log)
      ensures GroupDone(o.init, o.base, pending, log)
    {
      ghost var p, l := pending, log;
      Others();
      DirectKept(o, oks, [], p, l, pending, log);
      DirectsDone(o, oks, pending, log, kindOf);
      DeleteRequests(deleteIds, o.init, o.kind, oks);
    }

    /** The one deletion of the accepted requests. */
    method DeleteRequests(deleteIds: set<string>, ghost data: seq<Entry>, ghost kind: Kind, ghost oks: seq<bool>)
      requires Valid() && log.inFlight == {} && |oks| == |data| && AreDirect(data, kind, kindOf)
      requires deleteIds == KeysAnswered(data, oks, true)
      modifies this
      ensures Valid() && points == old(points) + [Point(pending, log)]
      ensures pending == old(pending) - deleteIds && log == old(log).(dealt := |old(log).sent|)
    {
      DirectDeleteKeepsGood(pending, log, kindOf, kind, data, oks);
      DirectKeepsSourced(pending, pending - deleteIds, log, log.(dealt := |log.sent|), kindOf);
      pending := pending - deleteIds;
      log := log.(dealt := |log.sent|);
      Mark();
    }

    // ----- One cycle of the handler -----

    /** The stored entries, in some order. */
    method GetPendingApiRequests() returns (entries: seq<Entry>)
      requires Valid()
      ensures Lists(pending, entries)
    {
      entries := [];
      var left := pending.Keys;
      while left != {}
        invariant left <= pending.Keys
        invariant forall e :: e in entries ==> Key(e) in pending && Key(e) !in left && pending[Key(e)] == e
        invariant DistinctKeys(entries)
        invariant forall k :: k in pending && k !in left ==> pending[k] in entries
      {
        var k :| k in left;
        assert Key(pending[k]) == k;
        assert forall i :: 0 <= i < |entries| ==> entries[i] in entries;
        entries := entries + [pending[k]];
        left := left - {k};
      }
    }

    /** Handles each kind of the snapshot in turn, in whatever order the kinds come; the snapshot was taken at
        (p0, l0). */
    method ProcessRequests(segregated: map<Kind, seq<Entry>>, downloadSize: nat, deleteSize: nat,
                           ghost p0: Pending, ghost l0: Log)
      requires Valid() && Idle(log) && downloadSize > 0 && deleteSize > 0
      requires KindsOk(segregated, segregated.Keys, pending, log, l0, kindOf)
      requires CycleSoFar(segregated, p0, l0, pending, log)
      modifies this
      ensures Valid() && Idle(log) && old(points) <= points
      ensures CycleSoFar(segregated, p0, l0, pending, log)
      ensures PartWay(segregated, {}, l0, pending, log)
    {
      var kinds := segregated.Keys;
      while kinds != {}
        invariant Valid() && Idle(log) && old(points) <= points
        invariant KindsOk(segregated, kinds, pending, log, l0, kindOf)
        invariant PartWay(segregated, kinds, l0, pending, log)
        invariant CycleSoFar(segregated, p0, l0, pending, log)
      {
        var kind :| kind in kinds;
        ghost var p, l := pending, log;
        HandleKind(segregated[kind], kind, downloadSize, deleteSize, l0);
        KindsStayOk(segregated, kinds, kind, p, l, pending, log, l0, kindOf);
        NextKind(segregated, kinds, kind, l0, p, l, pending, log, kindOf);
        CycleGoesOn(segregated, kind, p0, l0, p, l, pending, log);
        kinds := kinds - {kind};
      }
    }

    /** Downloads and deletions go out in batches of their own sizes, the other kinds one by one. */
    method HandleKind(data: seq<Entry>, kind: Kind, downloadSize: nat, deleteSize: nat, ghost base: Log)
      requires downloadSize > 0 && deleteSize > 0
      requires Valid() && Idle(log) && KindOk(data, kind, pending, log, base, kindOf)
      modifies this
      ensures Valid() && Idle(log) && old(points) <= points
      ensures Elsewhere(old(pending), old(log), pending, log, KeysOf(data))
      ensures kind.Downloaded? ==> SentInBatches(data, SentSince(old(log), log), downloadSize)
      ensures kind.Deleted? ==> SentInBatches(data, SentSince(old(log), log), deleteSize)
      ensures NothingNew(old(pending), old(log), pending, log)
      ensures GroupDone(data, base, pending, log) && Told(data, SentSince(old(log), log))
    {
      if kind.Downloaded? || kind.Deleted? {
        var recs := new Entry[|data|](i requires 0 <= i < |data| => data[i]);
        assert recs[..] == data;
        SendRequestInBatches(recs, if kind.Downloaded? then downloadSize else deleteSize, kind, base);
      } else {
        ghost var _ := HandleDirect(data, kind, base);
      }
    }

    /** The handler takes copies of what is stored. */
    ghost method Hold()
      requires Valid() && Idle(log)
      modifies this`log
      ensures Valid() && Idle(log) && log == AfterHold(old(log))
    {
      HoldKeepsGood(pending, log, kindOf);
      HoldKeepsSourced(pending, log);
      log := AfterHold(log);
    }

    /** Handles a snapshot just taken; by the time the first kind is handled others may have put again. */
    method HandleSnapshot(entries: seq<Entry>, downloadSize: nat, deleteSize: nat)
      requires Valid() && Idle(log) && downloadSize > 0 && deleteSize > 0
      requires log.held == log.from && Lists(pending, entries)
      modifies this
      ensures Valid() && Idle(log) && old(points) <= points
      ensures CycleDone(old(pending), old(log), pending, log) && PutsSince(old(log), log)
      ensures Reported(old(pending), SentSince(old(log), log))
    {
      ghost var p0, l0 := pending, log;
      var segregated := GetSegregatedItems(entries);
      Others();
      CycleStarts(entries, segregated, p0, l0, pending, log, kindOf);
      ProcessRequests(segregated, downloadSize, deleteSize, p0, l0);
      CycleEnds(entries, segregated, p0, l0, pending, log);
    }

    /** One cycle: a snapshot, then every kind of request in it. Whatever others put after the snapshot, each stored
        entry whose own key nobody put is left exactly as its answers demand, and of an entry put over one of the
        snapshot the answers decide whether it is still stored. Without another put nothing but refused entries is
        left. */
    method HandleOnce(downloadSize: nat, deleteSize: nat)
      requires Valid() && Idle(log) && downloadSize > 0 && deleteSize > 0
      modifies this
      ensures Valid() && Idle(log) && old(points) <= points
      ensures CycleDone(old(pending), old(log), pending, log)
      ensures Reported(old(pending), SentSince(old(log), log))
      ensures OnlyRefusedLeft(old(log), pending, log) && LostAreGone(old(log), pending, log)
    {
      ghost var p0, l0 := pending, log;
      var entries := GetPendingApiRequests();
      Hold();
      ghost var l1 := log;
      HandleSnapshot(entries, downloadSize, deleteSize);
      CycleOutcome(p0, l0, l1, pending, log, kindOf);
      RoundLosses(l0, pending, log);
    }

    /** The handler's loop; others put between its rounds as at any other time. What is left in the end was put after
        the last snapshot, which `last` is the log of, or refused since; if every send was accepted and nobody put
        anything, nothing is left. In the end, and at every moment on the way, each content ever put is accounted for
        since its last put: accepted by each channel, or stored with that channel still due; but for a put that an
        answer dealt with later in its own round has overtaken, where an earlier put of the key is. */
    method HandleApiRequests(rounds: nat, downloadSize: nat, deleteSize: nat) returns (ghost last: Log)
      requires Valid() && Idle(log) && downloadSize > 0 && deleteSize > 0
      modifies this
      ensures Valid() && Idle(log) && old(points) <= points
      ensures old(log.sent) <= last.sent <= log.sent && old(log.puts) <= last.puts <= log.puts
      ensures NothingElseLost(pending, log)
      ensures forall i :: 0 <= i < |points| ==> NothingElseLost(points[i].pending, points[i].log)
      ensures rounds > 0 ==> OnlyRefusedLeft(last, pending, log)
      ensures rounds > 0 && AllOk(SentSince(old(log), log)) && log.puts == old(log.puts) ==> pending == map[]
    {
      ghost var l0 := log;
      last := log;
      for i := 0 to rounds
        invariant Valid() && Idle(log) && old(points) <= points
        invariant l0.sent <= last.sent <= log.sent && l0.puts <= last.puts <= log.puts
        invariant i > 0 ==> OnlyRefusedLeft(last, pending, log)
      {
        Others();
        last := log;
        HandleOnce(downloadSize, deleteSize);
      }
      if rounds > 0 && AllOk(SentSince(l0, log)) && log.puts == l0.puts {
        LaterMessages(l0, last, log);
        AllGone(last, pending, log);
      }
      OnlyOvertakenLost(pending, log);
      NothingElseLostAt(points, kindOf);
    }

    /** Whatever the handler and other goroutines do between two puts of one of them: any number of rounds with any
        message sizes, and puts before, in and after each. */
    method Meanwhile()
      requires Valid() && Idle(log)
      modifies this
      ensures Valid() && Idle(log) && old(points) <= points
      ensures old(log.sent) <= log.sent && old(log.puts) <= log.puts
    {
      var rounds, downloadSize, deleteSize :| 0 <= rounds && 0 < downloadSize && 0 < deleteSize;
      ghost var _ := HandleApiRequests(rounds, downloadSize, deleteSize);
      Others();
    }
  }

  /** The entries grouped by kind, each group in its original order. */
  method GetSegregatedItems(entries: seq<Entry>) returns (segregated: map<Kind, seq<Entry>>)
    ensures Grouped(entries, segregated)
  {
    segregated := map[];
    var i := 0;
    while i < |entries|
      invariant 0 <= i <= |entries|
      invariant forall kind :: kind in segregated <==> OfKind(entries[..i], kind) != []
      invariant forall kind :: kind in segregated ==> segregated[kind] == OfKind(entries[..i], kind)
    {
      var data := entries[i];
      assert entries[..i + 1][..i] == entries[..i];
      var values := if data.kind in segregated then segregated[data.kind] else [];
      segregated := segregated[data.kind := values + [data]];
      i := i + 1;
    }
    assert entries[..i] == entries;
  }
}
