/** Cutting a sequence into messages of bounded size while it is still being read. */
module Batching {
  import opened OutboxModel
  import opened Payload

  /** Consecutive pieces of `size` elements, the last one possibly shorter. */
  function Batches<T>(input: seq<T>, size: nat): seq<seq<T>>
    requires size > 0
  {
    if |input| <= size then (if input == [] then [] else [input])
    else [input[..size]] + Batches(input[size..], size)
  }

  function Concat<T>(pieces: seq<seq<T>>): seq<T> {
    if pieces == [] then [] else pieces[0] + Concat(pieces[1..])
  }

  /** The pieces put together are the input; none is empty or too long, and all but the last are full. */
  lemma {:induction false} BatchesCover<T>(input: seq<T>, size: nat)
    requires size > 0
    ensures Concat(Batches(input, size)) == input
    ensures Bounded(Batches(input, size), size)
    ensures forall i :: 0 <= i < |Batches(input, size)| - 1 ==> |Batches(input, size)[i]| == size
  {
    if |input| > size {
      BatchesCover(input[size..], size);
      assert Batches(input, size)[1..] == Batches(input[size..], size);
      assert input == input[..size] + input[size..];
      assert Batches(input[size..], size) != [];
    } else if input != [] {
      assert Batches(input, size)[1..] == [];
    }
  }

  /** The full pieces sent so far and the piece being filled make up what has been read. */
  ghost predicate Filling<T>(pieces: seq<seq<T>>, current: seq<T>, read: seq<T>, size: nat) {
    && (forall i :: 0 <= i < |pieces| ==> |pieces[i]| == size)
    && Concat(pieces) + current == read
  }

  lemma {:induction false} ConcatSnoc<T>(pieces: seq<seq<T>>, piece: seq<T>)
    ensures Concat(pieces + [piece]) == Concat(pieces) + piece
  {
    if pieces == [] {
      assert [piece][1..] == [];
      assert pieces + [piece] == [piece];
    } else {
      assert (pieces + [piece])[1..] == pieces[1..] + [piece];
      ConcatSnoc(pieces[1..], piece);
    }
  }

  lemma FillMore<T>(pieces: seq<seq<T>>, current: seq<T>, read: seq<T>, x: T, size: nat)
    requires Filling(pieces, current, read, size)
    ensures Filling(pieces, current + [x], read + [x], size)
  {
    assert Concat(pieces) + (current + [x]) == (Concat(pieces) + current) + [x];
  }

  lemma FillFlush<T>(pieces: seq<seq<T>>, current: seq<T>, read: seq<T>, size: nat)
    requires Filling(pieces, current, read, size) && |current| == size
    ensures Filling(pieces + [current], [], read, size)
  {
    ConcatSnoc(pieces, current);
    assert Concat(pieces) + current + [] == read;
  }

  /** No piece is empty or too long. */
  ghost predicate Bounded<T>(pieces: seq<seq<T>>, size: nat) {
    forall i :: 0 <= i < |pieces| ==> 0 < |pieces[i]| <= size
  }

  /** However far the cut has got, the pieces so far are a prefix of what has been read. */
  lemma FillSoFar<T>(pieces: seq<seq<T>>, current: seq<T>, read: seq<T>, size: nat)
    requires size > 0 && Filling(pieces, current, read, size) && |current| <= size
    ensures Concat(pieces) <= read && Bounded(pieces, size)
    ensures current != [] ==> Concat(pieces + [current]) <= read && Bounded(pieces + [current], size)
  {
    ConcatSnoc(pieces, current);
  }

  /** At the end of the input, sending what is left completes the cut. */
  lemma {:induction false} FillEnd<T>(pieces: seq<seq<T>>, current: seq<T>, read: seq<T>, size: nat)
    requires Filling(pieces, current, read, size) && |current| < size
    ensures Batches(read, size) == if current == [] then pieces else pieces + [current]
    decreases |pieces|
  {
    if pieces == [] {
      assert read == current;
    } else {
      var rest := read[size..];
      assert read == pieces[0] + (Concat(pieces[1..]) + current);
      assert rest == Concat(pieces[1..]) + current && read[..size] == pieces[0];
      FillEnd(pieces[1..], current, rest, size);
      assert pieces == [pieces[0]] + pieces[1..];
      if |read| == size {
        assert rest == [];
      }
    }
  }

  // ----- What a channel should be sent, and what it was sent -----

  /** The entries still due on a channel, in order. */
  function Flagged(recs: seq<Entry>, ch: Channel): seq<Entry> {
    if recs == [] then []
    else
      var last := recs[|recs| - 1];
      Flagged(recs[..|recs| - 1], ch) + if Flag(last, ch) then [last] else []
  }

  function Ids(recs: seq<Entry>): seq<string> {
    seq(|recs|, i requires 0 <= i < |recs| => recs[i].id)
  }

  function Payloads(recs: seq<Entry>, ch: Channel): seq<Content> {
    seq(|recs|, i requires 0 <= i < |recs| => PayloadOf(recs[i], ch))
  }

  function IdsOn(messages: seq<Message>, ch: Channel): seq<seq<string>> {
    if messages == [] then []
    else
      var last := messages[|messages| - 1];
      IdsOn(messages[..|messages| - 1], ch) + if last.channel == ch then [last.ids] else []
  }

  function PayloadsOn(messages: seq<Message>, ch: Channel): seq<seq<Content>> {
    if messages == [] then []
    else
      var last := messages[|messages| - 1];
      PayloadsOn(messages[..|messages| - 1], ch) + if last.channel == ch then [last.payload] else []
  }

  predicate AllOk(messages: seq<Message>) {
    forall i :: 0 <= i < |messages| ==> messages[i].ok
  }

  /** The copies have kept everything but flags and retry counts; those not yet reached have kept all. */
  ghost predicate Reached(init: seq<Entry>, recs: seq<Entry>, i: nat) {
    && |recs| == |init| && i <= |init|
    && (forall j :: 0 <= j < |init| ==> recs[j].id == init[j].id)
    && (forall j :: i <= j < |init| ==> recs[j] == init[j])
  }

  /** The contents gathered tell of the entries the batch points at. */
  ghost predicate BatchTells(init: seq<Entry>, batch: seq<nat>, ch: Channel, payload: seq<Content>) {
    |payload| == |batch|
    && forall k :: 0 <= k < |batch| ==> batch[k] < |init| && Tells(init[batch[k]], ch, payload[k])
  }

  /** One channel's side of the batching loop after `i` entries. */
  ghost predicate Lane(init: seq<Entry>, recs: seq<Entry>, i: nat, ch: Channel, batch: seq<nat>, payload: seq<Content>,
                       messages: seq<Message>, size: nat)
    requires i <= |init|
  {
    && BatchOk(recs, batch, ch) && (forall k :: 0 <= k < |batch| ==> batch[k] < i)
    && |batch| == |payload| <= size && BatchTells(init, batch, ch, payload)
    && Filling(IdsOn(messages, ch), IdsAt(recs, batch), Ids(Flagged(init[..i], ch)), size)
    && Filling(PayloadsOn(messages, ch), payload, Payloads(Flagged(init[..i], ch), ch), size)
  }

  lemma TellsMore(init: seq<Entry>, batch: seq<nat>, ch: Channel, payload: seq<Content>, i: nat)
    requires BatchTells(init, batch, ch, payload) && i < |init|
    ensures BatchTells(init, batch + [i], ch, payload + [PayloadOf(init[i], ch)])
  {
    PayloadTells(init[i], ch);
  }

  lemma LaneAdd(init: seq<Entry>, recs: seq<Entry>, i: nat, ch: Channel, batch: seq<nat>, payload: seq<Content>,
                messages: seq<Message>, size: nat)
    requires i < |init| && Reached(init, recs, i) && |batch| < size
    requires Lane(init, recs, i, ch, batch, payload, messages, size)
    ensures if Flag(init[i], ch) then
              Lane(init, recs, i + 1, ch, batch + [i], payload + [PayloadOf(init[i], ch)], messages, size)
            else Lane(init, recs, i + 1, ch, batch, payload, messages, size)
  {
    var before, after := Flagged(init[..i], ch), Flagged(init[..i + 1], ch);
    assert init[..i + 1][..i] == init[..i];
    if Flag(init[i], ch) {
      assert after == before + [init[i]];
      assert Ids(after) == Ids(before) + [init[i].id];
      assert Payloads(after, ch) == Payloads(before, ch) + [PayloadOf(init[i], ch)];
      assert IdsAt(recs, batch + [i]) == IdsAt(recs, batch) + [init[i].id];
      FillMore(IdsOn(messages, ch), IdsAt(recs, batch), Ids(before), init[i].id, size);
      FillMore(PayloadsOn(messages, ch), payload, Payloads(before, ch), PayloadOf(init[i], ch), size);
      TellsMore(init, batch, ch, payload, i);
    } else {
      assert after == before;
    }
  }

  /** The copies after a batch has been answered. */
  function Answered(recs: seq<Entry>, batch: seq<nat>, ch: Channel, ok: bool): seq<Entry> {
    if ok then ClearAt(recs, batch, ch) else BumpAt(recs, batch)
  }

  lemma SentOn(messages: seq<Message>, m: Message, ch: Channel)
    ensures IdsOn(messages + [m], ch) == if m.channel == ch then IdsOn(messages, ch) + [m.ids] else IdsOn(messages, ch)
    ensures PayloadsOn(messages + [m], ch) ==
            if m.channel == ch then PayloadsOn(messages, ch) + [m.payload] else PayloadsOn(messages, ch)
    ensures AllOk(messages + [m]) <==> AllOk(messages) && m.ok
  {
    var more := messages + [m];
    assert more[..|messages|] == messages;
    if AllOk(more) {
      assert more[|messages|].ok;
      assert forall i :: 0 <= i < |messages| ==> more[i].ok && more[i] == messages[i];
    }
  }

  /** Sending a full batch empties the lane. */
  lemma LaneFlush(init: seq<Entry>, recs: seq<Entry>, i: nat, ch: Channel, batch: seq<nat>, payload: seq<Content>,
                  messages: seq<Message>, size: nat, m: Message)
    requires i <= |init| && Lane(init, recs, i, ch, batch, payload, messages, size) && |batch| == size
    requires m.channel == ch && !ch.Direct? && m.ids == IdsAt(recs, batch) && m.payload == payload
    ensures Lane(init, Answered(recs, batch, ch, m.ok), i, ch, [], [], messages + [m], size)
  {
    SentOn(messages, m, ch);
    FillFlush(IdsOn(messages, ch), IdsAt(recs, batch), Ids(Flagged(init[..i], ch)), size);
    FillFlush(PayloadsOn(messages, ch), payload, Payloads(Flagged(init[..i], ch), ch), size);
    assert IdsAt(Answered(recs, batch, ch, m.ok), []) == [];
  }

  /** An answer on one channel leaves the other channel's flags alone. */
  lemma OtherFlags(recs: seq<Entry>, batch: seq<nat>, answered: Channel, ok: bool, ch: Channel)
    requires answered != ch
    ensures var recs' := Answered(recs, batch, answered, ok);
            && |recs'| == |recs|
            && forall j :: 0 <= j < |recs| ==> Flag(recs'[j], ch) == Flag(recs[j], ch) && recs'[j].id == recs[j].id
  {
  }

  lemma SameBatch(recs: seq<Entry>, recs': seq<Entry>, batch: seq<nat>, ch: Channel)
    requires BatchOk(recs, batch, ch) && |recs'| == |recs|
    requires forall j :: 0 <= j < |recs| ==> Flag(recs'[j], ch) == Flag(recs[j], ch) && recs'[j].id == recs[j].id
    ensures BatchOk(recs', batch, ch) && IdsAt(recs', batch) == IdsAt(recs, batch)
  {
  }

  /** A message on the other channel leaves the lane alone. */
  lemma LaneOther(init: seq<Entry>, recs: seq<Entry>, i: nat, ch: Channel, batch: seq<nat>, payload: seq<Content>,
                  messages: seq<Message>, size: nat, other: seq<nat>, m: Message)
    requires i <= |init| && Lane(init, recs, i, ch, batch, payload, messages, size)
    requires m.channel != ch
    ensures Lane(init, Answered(recs, other, m.channel, m.ok), i, ch, batch, payload, messages + [m], size)
  {
    var recs' := Answered(recs, other, m.channel, m.ok);
    SentOn(messages, m, ch);
    OtherFlags(recs, other, m.channel, m.ok, ch);
    SameBatch(recs, recs', batch, ch);
  }

  /** A channel has been sent everything due on it, in batches. */
  ghost predicate LaneDone(init: seq<Entry>, ch: Channel, messages: seq<Message>, size: nat)
    requires size > 0
  {
    && IdsOn(messages, ch) == Batches(Ids(Flagged(init, ch)), size)
    && PayloadsOn(messages, ch) == Batches(Payloads(Flagged(init, ch), ch), size)
  }

  lemma LaneEnd(init: seq<Entry>, recs: seq<Entry>, ch: Channel, batch: seq<nat>, payload: seq<Content>,
                messages: seq<Message>, size: nat, m: Message)
    requires |recs| == |init| && Lane(init, recs, |init|, ch, batch, payload, messages, size) && |batch| < size
    requires m.channel == ch && !ch.Direct? && m.ids == IdsAt(recs, batch) && m.payload == payload
    ensures batch == [] ==> LaneDone(init, ch, messages, size)
    ensures batch != [] ==> LaneDone(init, ch, messages + [m], size)
  {
    assert init[..|init|] == init;
    SentOn(messages, m, ch);
    FillEnd(IdsOn(messages, ch), IdsAt(recs, batch), Ids(Flagged(init, ch)), size);
    FillEnd(PayloadsOn(messages, ch), payload, Payloads(Flagged(init, ch), ch), size);
  }

  lemma LaneDoneOther(init: seq<Entry>, ch: Channel, messages: seq<Message>, size: nat, m: Message)
    requires size > 0 && LaneDone(init, ch, messages, size) && m.channel != ch
    ensures LaneDone(init, ch, messages + [m], size)
  {
    SentOn(messages, m, ch);
  }

  predicate NoneDirect(messages: seq<Message>) {
    forall i :: 0 <= i < |messages| ==> !messages[i].channel.Direct?
  }

  /** Both channels have been sent exactly what was due on them, in order and in batches of the given size, and nothing
      else has been sent. */
  ghost predicate SentInBatches(init: seq<Entry>, messages: seq<Message>, size: nat)
    requires size > 0
  {
    NoneDirect(messages) && forall ch: Channel :: !ch.Direct? ==> LaneDone(init, ch, messages, size)
  }

  // ----- Every entry goes out once on every channel it is due on -----

  ghost predicate NoRepeat(keys: seq<string>) {
    forall i, j :: 0 <= i < j < |keys| ==> keys[i] != keys[j]
  }

  /** The message with index `i` went out on the channel with this key. */
  predicate CarriedBy(messages: seq<Message>, i: nat, key: string, ch: Channel) {
    About(messages, i, key) && messages[i].channel == ch
  }

  ghost predicate Carried(messages: seq<Message>, key: string, ch: Channel) {
    exists i: nat :: CarriedBy(messages, i, key, ch)
  }

  /** On each channel it was due on, and on no other, the entry went out in exactly one message. */
  ghost predicate SentOnce(e: Entry, messages: seq<Message>) {
    forall ch: Channel :: !ch.Direct? ==>
      && (Flag(e, ch) <==> Carried(messages, e.id, ch))
      && forall i: nat, j: nat :: CarriedBy(messages, i, e.id, ch) && CarriedBy(messages, j, e.id, ch) ==> i == j
  }

  lemma {:induction false} CarriedIff(messages: seq<Message>, key: string, ch: Channel)
    ensures Carried(messages, key, ch) <==> key in Concat(IdsOn(messages, ch))
  {
    if messages != [] {
      var init, last := messages[..|messages| - 1], messages[|messages| - 1];
      CarriedIff(init, key, ch);
      ConcatSnoc(IdsOn(init, ch), last.ids);
      if i: nat :| CarriedBy(init, i, key, ch) {
        assert CarriedBy(messages, i, key, ch);
      }
      if i: nat :| CarriedBy(messages, i, key, ch) {
        assert i < |init| ==> CarriedBy(init, i, key, ch);
      }
      if last.channel == ch && key in last.ids {
        assert CarriedBy(messages, |init|, key, ch);
      }
      assert last.channel != ch ==> IdsOn(messages, ch) == IdsOn(init, ch);
    }
  }

  lemma NoRepeatParts(a: seq<string>, b: seq<string>)
    requires NoRepeat(a + b)
    ensures NoRepeat(a) && forall k :: k in a ==> k !in b
  {
    assert forall i :: 0 <= i < |a| ==> (a + b)[i] == a[i];
    forall i, j | 0 <= i < |a| && 0 <= j < |b|
      ensures a[i] != b[j]
    {
      assert (a + b)[i] == a[i] && (a + b)[|a| + j] == b[j];
    }
  }

  /** Without its last message nothing is carried twice either, and what the last one carries is not carried before. */
  lemma LastCarries(messages: seq<Message>, key: string, ch: Channel)
    requires messages != [] && NoRepeat(Concat(IdsOn(messages, ch)))
    ensures var init, last := messages[..|messages| - 1], messages[|messages| - 1];
            && NoRepeat(Concat(IdsOn(init, ch)))
            && (last.channel == ch && key in last.ids ==> !Carried(init, key, ch))
  {
    var init, last := messages[..|messages| - 1], messages[|messages| - 1];
    var before := Concat(IdsOn(init, ch));
    ConcatSnoc(IdsOn(init, ch), last.ids);
    if last.channel == ch {
      assert Concat(IdsOn(messages, ch)) == before + last.ids;
      NoRepeatParts(before, last.ids);
      CarriedIff(init, key, ch);
    } else {
      assert IdsOn(messages, ch) == IdsOn(init, ch);
    }
  }

  lemma {:induction false} CarriedOnce(messages: seq<Message>, key: string, ch: Channel, i: nat, j: nat)
    requires NoRepeat(Concat(IdsOn(messages, ch)))
    requires CarriedBy(messages, i, key, ch) && CarriedBy(messages, j, key, ch)
    ensures i == j
  {
    var init := messages[..|messages| - 1];
    LastCarries(messages, key, ch);
    assert i < |init| ==> CarriedBy(init, i, key, ch);
    assert j < |init| ==> CarriedBy(init, j, key, ch);
    if i < |init| && j < |init| {
      CarriedOnce(init, key, ch, i, j);
    }
  }

  lemma {:induction false} FlaggedOnce(recs: seq<Entry>, ch: Channel)
    requires DistinctIds(recs)
    ensures NoRepeat(Ids(Flagged(recs, ch)))
    ensures forall j :: 0 <= j < |recs| ==> (Flag(recs[j], ch) <==> recs[j].id in Ids(Flagged(recs, ch)))
    ensures forall k :: k in Ids(Flagged(recs, ch)) ==> exists j :: 0 <= j < |recs| && recs[j].id == k
  {
    if recs != [] {
      var init, last := recs[..|recs| - 1], recs[|recs| - 1];
      assert forall j :: 0 <= j < |init| ==> recs[j] == init[j] && recs[j].id != last.id;
      FlaggedOnce(init, ch);
      var before, after := Ids(Flagged(init, ch)), Ids(Flagged(recs, ch));
      assert after == before + if Flag(last, ch) then [last.id] else [];
      assert last.id !in before;
      assert forall n :: 0 <= n < |before| ==> after[n] == before[n] && before[n] in before;
      forall k | k in after
        ensures exists j :: 0 <= j < |recs| && recs[j].id == k
      {
        if k in before {
          var j :| 0 <= j < |init| && init[j].id == k;
          assert recs[j].id == k;
        } else {
          assert recs[|init|].id == k;
        }
      }
    }
  }

  /** Batches that cover what was due on each channel carry every entry exactly once on each such channel. */
  lemma AllSentOnce(init: seq<Entry>, messages: seq<Message>, size: nat)
    requires size > 0 && DistinctIds(init) && SentInBatches(init, messages, size)
    ensures forall j :: 0 <= j < |init| ==> SentOnce(init[j], messages)
  {
    forall j, ch: Channel | 0 <= j < |init| && !ch.Direct?
      ensures Flag(init[j], ch) <==> Carried(messages, init[j].id, ch)
      ensures forall a: nat, b: nat ::
                CarriedBy(messages, a, init[j].id, ch) && CarriedBy(messages, b, init[j].id, ch) ==> a == b
    {
      var k, due := init[j].id, Ids(Flagged(init, ch));
      assert LaneDone(init, ch, messages, size);
      FlaggedOnce(init, ch);
      BatchesCover(due, size);
      CarriedIff(messages, k, ch);
      forall a: nat, b: nat | CarriedBy(messages, a, k, ch) && CarriedBy(messages, b, k, ch)
        ensures a == b
      {
        CarriedOnce(messages, k, ch, a, b);
      }
    }
  }
}
