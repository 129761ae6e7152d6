/** What a round of sends has done to each entry: the handler's copies, the messages and the bucket kept in account. */
module Accounts {
  import opened OutboxModel
  import opened Batching

  /** Everything about an entry but its flags and its retry count. */
  predicate SameReport(e: Entry, d: Entry) {
    e.id == d.id && e.kind == d.kind && e.time == d.time && e.properties == d.properties
  }

  // ----- Copies against messages -----

  /** The copy of `e` after these messages: a flag is up if it was and the channel has not accepted the entry, and
      every refusal has counted as a retry. */
  ghost predicate TallyOf(e: Entry, copy: Entry, answered: seq<Message>) {
    && SameReport(copy, e)
    && (forall ch: Channel :: !ch.Direct? ==> (Flag(copy, ch) <==> Flag(e, ch) && !Accepted(answered, e.id, ch)))
    && copy.retries == e.retries + FailCount(answered, e.id)
  }

  ghost predicate Tally(init: seq<Entry>, copies: seq<Entry>, answered: seq<Message>) {
    |copies| == |init| && forall j :: 0 <= j < |init| ==> TallyOf(init[j], copies[j], answered)
  }

  lemma TallyStart(init: seq<Entry>)
    ensures Tally(init, init, [])
  {
  }

  lemma TallyOne(e: Entry, copy: Entry, answered: seq<Message>, m: Message)
    requires TallyOf(e, copy, answered) && !m.channel.Direct?
    ensures e.id !in m.ids ==> TallyOf(e, copy, answered + [m])
    ensures e.id in m.ids ==> TallyOf(e, if m.ok then Clear(copy, m.channel) else Bump(copy), answered + [m])
  {
    FailCountSnoc(answered, m);
    AcceptedSnoc(answered, m, 0, e.id, Cloud);
    AcceptedSnoc(answered, m, 0, e.id, IoT);
  }

  lemma TallyStep(init: seq<Entry>, copies: seq<Entry>, answered: seq<Message>, batch: seq<nat>, m: Message)
    requires Tally(init, copies, answered) && DistinctIds(copies) && !m.channel.Direct?
    requires BatchOk(copies, batch, m.channel) && m.ids == IdsAt(copies, batch)
    ensures Tally(init, Answered(copies, batch, m.channel, m.ok), answered + [m])
  {
    BatchIds(copies, batch, m.channel);
    forall j | 0 <= j < |init|
      ensures TallyOf(init[j], Answered(copies, batch, m.channel, m.ok)[j], answered + [m])
    {
      TallyOne(init[j], copies[j], answered, m);
    }
  }

  // ----- One answer after another -----

  predicate RefusedAt(messages: seq<Message>, i: nat, key: string) {
    About(messages, i, key) && !messages[i].ok
  }

  predicate TakenAt(messages: seq<Message>, i: nat, key: string) {
    About(messages, i, key) && messages[i].ok
  }

  /** The channel accepted the key, and some channel refused it afterwards. */
  ghost predicate AcceptedThenRefused(messages: seq<Message>, key: string, ch: Channel) {
    exists a: nat, b: nat :: a < b && AcceptedAt(messages, a, key, ch) && RefusedAt(messages, b, key)
  }

  /** Some channel refused the key, and some channel accepted it afterwards. */
  ghost predicate RefusedThenAccepted(messages: seq<Message>, key: string) {
    exists a: nat, b: nat :: a < b && RefusedAt(messages, a, key) && TakenAt(messages, b, key)
  }

  lemma ThenRefusedSnoc(messages: seq<Message>, m: Message, key: string, ch: Channel)
    ensures AcceptedThenRefused(messages + [m], key, ch) <==>
            AcceptedThenRefused(messages, key, ch) || (!m.ok && key in m.ids && Accepted(messages, key, ch))
  {
    var more := messages + [m];
    if a: nat, b: nat :| a < b && AcceptedAt(more, a, key, ch) && RefusedAt(more, b, key) {
      assert AcceptedAt(messages, a, key, ch);
      assert b < |messages| ==> RefusedAt(messages, b, key);
    }
    if a: nat, b: nat :| a < b && AcceptedAt(messages, a, key, ch) && RefusedAt(messages, b, key) {
      assert AcceptedAt(more, a, key, ch) && RefusedAt(more, b, key);
    }
    if !m.ok && key in m.ids && Accepted(messages, key, ch) {
      var a: nat :| AcceptedAt(messages, a, key, ch);
      assert AcceptedAt(more, a, key, ch) && RefusedAt(more, |messages|, key);
    }
  }

  // ----- The bucket against messages -----

  ghost predicate InSyncAt(e: Entry, pending: Pending) {
    Key(e) in pending && pending[Key(e)] == e
  }

  /** Some channel the entry was due on has not accepted it. */
  ghost predicate StillDue(e: Entry, answered: seq<Message>) {
    exists ch: Channel :: !ch.Direct? && Flag(e, ch) && !Accepted(answered, e.id, ch)
  }

  /** How an entry is stored after these messages: its retries have grown by the refusals, and a flag it had is down
      exactly if the channel accepted it before the last refusal. */
  ghost predicate StoredAs(e: Entry, answered: seq<Message>, stored: Entry) {
    && SameReport(stored, e) && stored.retries == e.retries + FailCount(answered, e.id)
    && forall ch: Channel :: !ch.Direct? ==>
         (Flag(stored, ch) <==> Flag(e, ch) && !AcceptedThenRefused(answered, e.id, ch))
  }

  /** What is left of an entry: it is stored if and only if some channel still has to accept it. */
  ghost predicate Handled(e: Entry, answered: seq<Message>, pending: Pending) {
    && (e.id in pending <==> StillDue(e, answered))
    && (e.id in pending ==> StoredAs(e, answered, pending[e.id]))
  }

  /** What dealing with one answer does to the bucket at one copy's key; `copy` is the copy afterwards. */
  ghost predicate EffectAt(copy: Entry, inBatch: bool, ok: bool, p: Pending, p': Pending) {
    if inBatch && ok && !Unsent(copy) then copy.id !in p'
    else if inBatch && !ok then copy.id in p' && p'[copy.id] == copy
    else SameAt(p, p', copy.id)
  }

  lemma HandledStart(e: Entry, pending: Pending)
    requires InSyncAt(e, pending) && Unsent(e) && IsContent(e.kind)
    ensures Handled(e, [], pending)
  {
    assert Flag(e, Cloud) || Flag(e, IoT);
  }

  lemma HandledStep(e: Entry, copy: Entry, copy': Entry, answered: seq<Message>, m: Message, p: Pending, p': Pending)
    requires TallyOf(e, copy, answered) && Handled(e, answered, p) && !m.channel.Direct?
    requires TallyOf(e, copy', answered + [m]) && EffectAt(copy', e.id in m.ids, m.ok, p, p')
    requires e.id in m.ids ==> Flag(copy, m.channel) && copy' == if m.ok then Clear(copy, m.channel) else Bump(copy)
    ensures Handled(e, answered + [m], p')
  {
    FailCountSnoc(answered, m);
    AcceptedSnoc(answered, m, 0, e.id, Cloud);
    AcceptedSnoc(answered, m, 0, e.id, IoT);
    ThenRefusedSnoc(answered, m, e.id, Cloud);
    ThenRefusedSnoc(answered, m, e.id, IoT);
    RefusedComesAfter(answered, e.id, Cloud);
    RefusedComesAfter(answered, e.id, IoT);
    DueIffUnsent(e, copy, answered);
    DueIffUnsent(e, copy', answered + [m]);
  }

  /** Where the answer overwrote or deleted whatever was stored, what is left is what the answers demand, too. */
  lemma HandledAnew(e: Entry, copy: Entry, copy': Entry, answered: seq<Message>, m: Message, p: Pending, p': Pending)
    requires TallyOf(e, copy, answered) && TallyOf(e, copy', answered + [m]) && !m.channel.Direct?
    requires EffectAt(copy', true, m.ok, p, p') && e.id in m.ids && (m.ok ==> !Unsent(copy'))
    requires Flag(copy, m.channel) && copy' == if m.ok then Clear(copy, m.channel) else Bump(copy)
    ensures Handled(e, answered + [m], p')
  {
    FailCountSnoc(answered, m);
    AcceptedSnoc(answered, m, 0, e.id, Cloud);
    AcceptedSnoc(answered, m, 0, e.id, IoT);
    ThenRefusedSnoc(answered, m, e.id, Cloud);
    ThenRefusedSnoc(answered, m, e.id, IoT);
    RefusedComesAfter(answered, e.id, Cloud);
    RefusedComesAfter(answered, e.id, IoT);
    DueIffUnsent(e, copy', answered + [m]);
  }

  lemma RefusedComesAfter(messages: seq<Message>, key: string, ch: Channel)
    ensures AcceptedThenRefused(messages, key, ch) ==> Accepted(messages, key, ch)
  {
  }

  lemma DueIffUnsent(e: Entry, copy: Entry, answered: seq<Message>)
    requires TallyOf(e, copy, answered)
    ensures StillDue(e, answered) <==> Unsent(copy)
  {
    assert Unsent(copy) <==> Flag(copy, Cloud) || Flag(copy, IoT);
  }

  /** No key has appeared that nobody put. */
  ghost predicate NothingNew(p0: Pending, l0: Log, p: Pending, l: Log) {
    forall k :: k in p ==> k in p0 || !Undisturbed(l0, l, k)
  }

  function KeysOf(entries: seq<Entry>): set<string> {
    set j | 0 <= j < |entries| :: Key(entries[j])
  }

  /** What dealing with a batch's answer does to the bucket; `copies` are the copies afterwards. */
  ghost predicate Effects(copies: seq<Entry>, batch: seq<nat>, ok: bool, p: Pending, p': Pending) {
    && p'.Keys <= p.Keys
    && (forall j :: 0 <= j < |copies| ==> EffectAt(copies[j], j in batch, ok, p, p'))
    && forall k :: k !in KeysOf(copies) ==> SameAt(p, p', k)
  }

  ghost predicate IsContentGroup(init: seq<Entry>) {
    forall j :: 0 <= j < |init| ==> IsContent(init[j].kind)
  }

  /** A message is about just the entries of its batch, each of which was due on its channel. */
  lemma InBatchIff(init: seq<Entry>, copies: seq<Entry>, batch: seq<nat>, m: Message, answered: seq<Message>, j: nat)
    requires Tally(init, copies, answered) && j < |init|
    requires DistinctIds(copies) && BatchOk(copies, batch, m.channel) && m.ids == IdsAt(copies, batch)
    ensures init[j].id in m.ids <==> j in batch
    ensures j in batch ==> Flag(copies[j], m.channel)
  {
    BatchIds(copies, batch, m.channel);
    assert TallyOf(init[j], copies[j], answered);
  }

  // ----- What is sent again -----

  /** A channel that has accepted the entry is still due in the bucket, and will be sent it again. */
  ghost predicate DueAgain(e: Entry, answered: seq<Message>, pending: Pending) {
    e.id in pending && exists ch: Channel :: !ch.Direct? && Accepted(answered, e.id, ch) && Flag(pending[e.id], ch)
  }

  /** Once an entry has gone out on every channel it was due on, this is so exactly if a refusal came before an
      acceptance: the success that comes after a failure is not written back. */
  lemma DueAgainIff(e: Entry, answered: seq<Message>, pending: Pending)
    requires Handled(e, answered, pending) && SentOnce(e, answered) && NoneDirect(answered)
    ensures DueAgain(e, answered, pending) <==> RefusedThenAccepted(answered, e.id)
  {
    if DueAgain(e, answered, pending) {
      var ch: Channel :| !ch.Direct? && Accepted(answered, e.id, ch) && Flag(pending[e.id], ch);
      var b: nat :| AcceptedAt(answered, b, e.id, ch);
      var due: Channel :| !due.Direct? && Flag(e, due) && !Accepted(answered, e.id, due);
      var a: nat :| CarriedBy(answered, a, e.id, due);
      assert RefusedAt(answered, a, e.id) by {
        assert !AcceptedAt(answered, a, e.id, due);
      }
      assert a <= b;
      assert TakenAt(answered, b, e.id);
    }
    if a: nat, b: nat :| a < b && RefusedAt(answered, a, e.id) && TakenAt(answered, b, e.id) {
      var first, second := answered[a].channel, answered[b].channel;
      assert CarriedBy(answered, a, e.id, first) && CarriedBy(answered, b, e.id, second);
      assert AcceptedAt(answered, b, e.id, second);
      OnlyAnswer(e, answered, a, first);
      LastAnswer(e, answered, a, b, second);
      assert StillDue(e, answered);
    }
  }

  /** A channel whose only message about the entry was refused has not accepted it. */
  lemma OnlyAnswer(e: Entry, answered: seq<Message>, a: nat, ch: Channel)
    requires SentOnce(e, answered) && !ch.Direct? && CarriedBy(answered, a, e.id, ch) && RefusedAt(answered, a, e.id)
    ensures Flag(e, ch) && !Accepted(answered, e.id, ch)
  {
    if i: nat :| AcceptedAt(answered, i, e.id, ch) {
      assert CarriedBy(answered, i, e.id, ch);
    }
  }

  /** With only two channels, nothing about the entry comes after its second message. */
  lemma LastAnswer(e: Entry, answered: seq<Message>, a: nat, b: nat, ch: Channel)
    requires SentOnce(e, answered) && NoneDirect(answered) && a < b
    requires RefusedAt(answered, a, e.id) && AcceptedAt(answered, b, e.id, ch)
    ensures Flag(e, ch) && !AcceptedThenRefused(answered, e.id, ch)
  {
    assert CarriedBy(answered, b, e.id, ch);
    assert CarriedBy(answered, a, e.id, answered[a].channel);
    if i: nat, j: nat :| i < j && AcceptedAt(answered, i, e.id, ch) && RefusedAt(answered, j, e.id) {
      assert CarriedBy(answered, i, e.id, ch);
      assert CarriedBy(answered, j, e.id, answered[j].channel);
    }
  }

  ghost predicate Refused(messages: seq<Message>, key: string) {
    exists i: nat :: RefusedAt(messages, i, key)
  }

  /** An entry that has gone out wherever it was due, and is still due, has been refused. */
  lemma DueWasRefused(e: Entry, answered: seq<Message>)
    requires StillDue(e, answered) && SentOnce(e, answered)
    ensures Refused(answered, e.id)
  {
    var ch: Channel :| !ch.Direct? && Flag(e, ch) && !Accepted(answered, e.id, ch);
    var i: nat :| CarriedBy(answered, i, e.id, ch);
    assert !AcceptedAt(answered, i, e.id, ch);
    assert RefusedAt(answered, i, e.id);
  }

  // ----- Requests sent one by one -----

  ghost predicate DistinctKeys(entries: seq<Entry>) {
    forall i, j :: 0 <= i < j < |entries| ==> Key(entries[i]) != Key(entries[j])
  }

  /** One message per request handled so far. */
  function DirectMessages(data: seq<Entry>, oks: seq<bool>): seq<Message>
    requires |oks| <= |data|
  {
    seq(|oks|, j requires 0 <= j < |oks| => Message(Direct, [Key(data[j])], [PayloadOf(data[j], Direct)], oks[j]))
  }

  /** The keys of the requests that were answered `ok`. */
  function KeysAnswered(data: seq<Entry>, oks: seq<bool>, ok: bool): set<string>
    requires |oks| <= |data|
  {
    set j | 0 <= j < |oks| && oks[j] == ok :: Key(data[j])
  }

  lemma KeysAnsweredSnoc(data: seq<Entry>, oks: seq<bool>, ok: bool)
    requires |oks| < |data|
    ensures forall b :: KeysAnswered(data, oks + [ok], b) ==
                        KeysAnswered(data, oks, b) + if b == ok then {Key(data[|oks|])} else {}
  {
    var more := oks + [ok];
    assert more[|oks|] == ok && forall j :: 0 <= j < |oks| ==> more[j] == oks[j];
    forall b
      ensures KeysAnswered(data, more, b) == KeysAnswered(data, oks, b) + if b == ok then {Key(data[|oks|])} else {}
    {
      forall k | k in KeysAnswered(data, oks, b)
        ensures k in KeysAnswered(data, more, b)
      {
        var j :| 0 <= j < |oks| && oks[j] == b && Key(data[j]) == k;
        assert more[j] == b;
      }
    }
  }

  lemma DirectAccepted(data: seq<Entry>, oks: seq<bool>, j: nat)
    requires |oks| == |data| && DistinctKeys(data) && j < |data|
    ensures Accepted(DirectMessages(data, oks), Key(data[j]), Direct) <==> oks[j]
  {
    var messages := DirectMessages(data, oks);
    assert messages[j].ids == [Key(data[j])] && Key(data[j]) in messages[j].ids;
    if oks[j] {
      assert AcceptedAt(messages, j, Key(data[j]), Direct);
    }
    if i: nat :| AcceptedAt(messages, i, Key(data[j]), Direct) {
      assert Key(data[i]) == Key(data[j]);
    }
  }

  // ----- A whole cycle -----

  /** What is left of an entry of any kind after these messages; nothing, unless one about it was refused. */
  ghost predicate Done(e: Entry, answered: seq<Message>, p: Pending) {
    && (if IsContent(e.kind) then
          Handled(e, answered, p) && (DueAgain(e, answered, p) <==> RefusedThenAccepted(answered, e.id))
        else
          && (Key(e) in p <==> !Accepted(answered, Key(e), Direct))
          && (Key(e) in p ==> p[Key(e)] == Bump(e)))
    && (Key(e) in p ==> Refused(answered, Key(e)))
  }

  lemma ContentDone(e: Entry, answered: seq<Message>, p: Pending)
    requires IsContent(e.kind) && Handled(e, answered, p) && SentOnce(e, answered) && NoneDirect(answered)
    ensures Done(e, answered, p)
  {
    DueAgainIff(e, answered, p);
    if e.id in p {
      DueWasRefused(e, answered);
    }
  }

  /** What has become of a request: gone if its message was accepted, and else stored with one more retry. */
  lemma DirectDone(data: seq<Entry>, oks: seq<bool>, p: Pending, j: nat)
    requires |oks| == |data| && DistinctKeys(data) && j < |data| && !IsContent(data[j].kind)
    requires if oks[j] then Key(data[j]) !in p else Key(data[j]) in p && p[Key(data[j])] == Bump(data[j])
    ensures Done(data[j], DirectMessages(data, oks), p)
  {
    DirectAccepted(data, oks, j);
    assert DirectMessages(data, oks)[j].ok == oks[j];
    assert !oks[j] ==> RefusedAt(DirectMessages(data, oks), j, Key(data[j]));
  }

  /** The messages `whole` mention the key only within the stretch `part`, which starts at `off`. */
  ghost predicate Within(part: seq<Message>, whole: seq<Message>, off: nat, key: string) {
    && off + |part| <= |whole|
    && (forall i :: off <= i < off + |part| ==> part[i - off] == whole[i])
    && (forall i: nat :: About(whole, i, key) ==> off <= i < off + |part|)
  }

  lemma SameAnswers(part: seq<Message>, whole: seq<Message>, off: nat, key: string, i: nat, ch: Channel)
    requires Within(part, whole, off, key)
    ensures RefusedAt(part, i, key) ==> RefusedAt(whole, off + i, key)
    ensures TakenAt(part, i, key) ==> TakenAt(whole, off + i, key)
    ensures AcceptedAt(part, i, key, ch) ==> AcceptedAt(whole, off + i, key, ch)
    ensures i >= off && RefusedAt(whole, i, key) ==> RefusedAt(part, i - off, key)
    ensures i >= off && TakenAt(whole, i, key) ==> TakenAt(part, i - off, key)
    ensures i >= off && AcceptedAt(whole, i, key, ch) ==> AcceptedAt(part, i - off, key, ch)
    ensures RefusedAt(whole, i, key) || TakenAt(whole, i, key) || AcceptedAt(whole, i, key, ch) ==> i >= off
  {
    assert i < |part| ==> part[i] == whole[off + i];
  }

  lemma RefusedFirstWithin(part: seq<Message>, whole: seq<Message>, off: nat, key: string)
    requires Within(part, whole, off, key)
    ensures RefusedThenAccepted(whole, key) <==> RefusedThenAccepted(part, key)
  {
    if i: nat, j: nat :| i < j && RefusedAt(part, i, key) && TakenAt(part, j, key) {
      SameAnswers(part, whole, off, key, i, Cloud);
      SameAnswers(part, whole, off, key, j, Cloud);
    }
    if i: nat, j: nat :| i < j && RefusedAt(whole, i, key) && TakenAt(whole, j, key) {
      SameAnswers(part, whole, off, key, i, Cloud);
      SameAnswers(part, whole, off, key, j, Cloud);
      assert RefusedAt(part, i - off, key) && TakenAt(part, j - off, key);
    }
  }

  lemma AcceptedFirstWithin(part: seq<Message>, whole: seq<Message>, off: nat, key: string, ch: Channel)
    requires Within(part, whole, off, key)
    ensures AcceptedThenRefused(whole, key, ch) <==> AcceptedThenRefused(part, key, ch)
  {
    if i: nat, j: nat :| i < j && AcceptedAt(part, i, key, ch) && RefusedAt(part, j, key) {
      SameAnswers(part, whole, off, key, i, ch);
      SameAnswers(part, whole, off, key, j, ch);
    }
    if i: nat, j: nat :| i < j && AcceptedAt(whole, i, key, ch) && RefusedAt(whole, j, key) {
      SameAnswers(part, whole, off, key, i, ch);
      SameAnswers(part, whole, off, key, j, ch);
      assert AcceptedAt(part, i - off, key, ch) && RefusedAt(part, j - off, key);
    }
  }

  /** Messages that do not mention the key, before or after, do not change in what order it was answered. */
  lemma OrderConcat(a: seq<Message>, b: seq<Message>, key: string)
    requires Unmentioned(a, key) || Unmentioned(b, key)
    ensures var part := if Unmentioned(b, key) then a else b;
            && (RefusedThenAccepted(a + b, key) <==> RefusedThenAccepted(part, key))
            && forall ch :: AcceptedThenRefused(a + b, key, ch) <==> AcceptedThenRefused(part, key, ch)
  {
    var part, off := if Unmentioned(b, key) then a else b, if Unmentioned(b, key) then 0 else |a|;
    assert Within(part, a + b, off, key) by {
      assert forall i: nat :: About(a + b, i, key) ==>
          if i < |a| then About(a, i, key) else About(b, i - |a|, key);
    }
    RefusedFirstWithin(part, a + b, off, key);
    forall ch: Channel
      ensures AcceptedThenRefused(a + b, key, ch) <==> AcceptedThenRefused(part, key, ch)
    {
      AcceptedFirstWithin(part, a + b, off, key, ch);
    }
  }

  lemma RefusedConcat(a: seq<Message>, b: seq<Message>, key: string)
    ensures Refused(a, key) || Refused(b, key) ==> Refused(a + b, key)
  {
    if i: nat :| RefusedAt(a, i, key) {
      assert RefusedAt(a + b, i, key);
    } else if i: nat :| RefusedAt(b, i, key) {
      assert (a + b)[|a| + i] == b[i];
      assert RefusedAt(a + b, |a| + i, key);
    }
  }

  lemma AllOkParts(a: seq<Message>, b: seq<Message>)
    ensures AllOk(a + b) <==> AllOk(a) && AllOk(b)
  {
    assert forall i :: 0 <= i < |a| ==> (a + b)[i] == a[i];
    assert forall i :: 0 <= i < |b| ==> (a + b)[|a| + i] == b[i];
  }

  /** Messages about other entries, before or after, change nothing for this one. */
  lemma DoneAmongOthers(e: Entry, a: seq<Message>, b: seq<Message>, p: Pending, p': Pending)
    requires SameAt(p, p', Key(e))
    requires (Unmentioned(b, Key(e)) && Done(e, a, p)) || (Unmentioned(a, Key(e)) && Done(e, b, p))
    ensures Done(e, a + b, p')
  {
    var k := Key(e);
    CountsConcat(a, b, k);
    RefusedConcat(a, b, k);
    if Unmentioned(b, k) && Done(e, a, p) {
      UnmentionedCounts(b, k);
      OrderConcat(a, b, k);
    } else {
      UnmentionedCounts(a, k);
      if Unmentioned(b, k) {
        BothUnmentioned(a, b, k);
      }
      OrderConcat(a, b, k);
    }
  }

  lemma BothUnmentioned(a: seq<Message>, b: seq<Message>, key: string)
    requires Unmentioned(a, key) && Unmentioned(b, key)
    ensures !RefusedThenAccepted(a, key) && !RefusedThenAccepted(b, key)
    ensures forall ch :: !AcceptedThenRefused(a, key, ch) && !AcceptedThenRefused(b, key, ch)
  {
  }
}
