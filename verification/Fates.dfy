/** What becomes of an entry put while the handler is at work: which puts survive the round, and which are lost. */
module Fates {
  import opened OutboxModel
  import opened Batching
  import opened Accounts

  /** Some message from index `from` on is about the key. */
  ghost predicate AnyAbout(messages: seq<Message>, from: nat, key: string) {
    exists i: nat :: from <= i && About(messages, i, key)
  }

  /** Every message about the key from index `from` on was accepted. */
  ghost predicate AllTaken(messages: seq<Message>, from: nat, key: string) {
    forall i: nat :: from <= i && About(messages, i, key) ==> messages[i].ok
  }

  ghost predicate RefusedBetween(messages: seq<Message>, from: nat, to: nat, key: string) {
    exists i: nat :: from <= i < to && RefusedAt(messages, i, key)
  }

  /** Whether an entry that was put is still stored once all messages have been dealt with; `base` messages had been
      sent when the handler took its copies. If none about the key was left to be dealt with it is. Otherwise a content
      survives if those are all accepted while an earlier refusal keeps the copy from being finished, a request if it
      had already been refused and put back. */
  ghost predicate PutSurvives(messages: seq<Message>, base: nat, put: Put, content: bool) {
    AnyAbout(messages, put.dealt, put.key) ==>
      if content then
        AllTaken(messages, put.dealt, put.key) && RefusedBetween(messages, base, put.dealt, put.key)
      else
        RefusedBetween(messages, put.dealt, put.settled, put.key)
  }

  /** The last put of the key since `base` is what is stored if and only if it survives the messages since. */
  ghost predicate FateDecided(base: Log, p: Pending, l: Log, key: string, content: bool) {
    forall q: nat :: LastPutOf(base, l, key, q) ==>
      (StoredPut(p, l, q) <==> PutSurvives(l.sent, |base.sent|, l.puts[q], content))
  }

  /** Nothing that was put under the key since `base` is stored. */
  ghost predicate NoPutStored(base: Log, p: Pending, l: Log, key: string) {
    forall q: nat :: LastPutOf(base, l, key, q) ==> !StoredPut(p, l, q)
  }

  lemma LastPutExists(l: Log, l': Log, key: string, i: nat)
    requires |l.puts| <= i < |l'.puts| && l'.puts[i].key == key
    ensures exists q: nat :: LastPutOf(l, l', key, q)
    decreases |l'.puts| - i
  {
    if r :| i < r < |l'.puts| && l'.puts[r].key == key {
      LastPutExists(l, l', key, r);
    } else {
      assert LastPutOf(l, l', key, i);
    }
  }

  lemma StoredIfPut(base: Log, p: Pending, l: Log, p': Pending, l': Log, key: string)
    requires KeptAt(p, l, p', l', key) && base.puts <= l.puts <= l'.puts && !Undisturbed(l, l', key)
    ensures !NoPutStored(base, p', l', key)
  {
    var i :| |l.puts| <= i < |l'.puts| && l'.puts[i].key == key;
    LastPutExists(l, l', key, i);
    var q: nat :| LastPutOf(l, l', key, q);
    assert LastPutOf(base, l', key, q);
  }

  /** If nothing put since `base` is stored after others have put, nobody has put the key meanwhile. */
  lemma NoPutBefore(base: Log, p: Pending, l: Log, p': Pending, l': Log, key: string)
    requires KeptAt(p, l, p', l', key) && base.puts <= l.puts <= l'.puts && NoPutStored(base, p', l', key)
    ensures SameAt(p, p', key) && Undisturbed(l, l', key) && NoPutStored(base, p, l, key)
  {
    if !Undisturbed(l, l', key) {
      StoredIfPut(base, p, l, p', l', key);
    }
    forall q: nat | LastPutOf(base, l, key, q)
      ensures !StoredPut(p, l, q)
    {
      assert LastPutOf(base, l', key, q);
    }
  }

  /** Puts since `base` came after what had been dealt with by then. */
  ghost predicate PutsAfter(base: Log, l: Log) {
    base.puts <= l.puts && forall i :: |base.puts| <= i < |l.puts| ==> base.dealt <= l.puts[i].dealt
  }

  /** ... and in the same round. */
  ghost predicate PutsSince(base: Log, l: Log) {
    && PutsAfter(base, l) && l.rounds == base.rounds
    && forall i :: |base.puts| <= i < |l.puts| ==> l.puts[i].round == |base.rounds|
  }

  lemma PutsSinceTwice(l: Log, l1: Log, l2: Log)
    requires PutsSince(l, l1) && PutsSince(l1, l2) && l.dealt <= l1.dealt
    ensures PutsSince(l, l2)
  {
    assert forall i :: 0 <= i < |l1.puts| ==> l1.puts[i] == l2.puts[i];
  }

  function SentSince(base: Log, l: Log): seq<Message> {
    if |base.sent| <= |l.sent| then l.sent[|base.sent|..] else []
  }

  /** Since the copy of `e` was taken at `base` no message was about it: what is stored is the last put since, or `e`
      itself. */
  ghost predicate Untouched(e: Entry, base: Log, p: Pending, l: Log) {
    && Unmentioned(SentSince(base, l), Key(e))
    && (forall q: nat :: LastPutOf(base, l, Key(e), q) ==> StoredPut(p, l, q))
    && (NoPutStored(base, p, l, Key(e)) ==> InSyncAt(e, p))
  }

  lemma UnmentionedSince(base: Log, l: Log, key: string)
    requires |base.sent| <= |l.sent| && Unmentioned(SentSince(base, l), key)
    ensures !AnyAbout(l.sent, |base.sent|, key)
  {
    forall i: nat | |base.sent| <= i
      ensures !About(l.sent, i, key)
    {
      assert !About(SentSince(base, l), i - |base.sent|, key);
    }
  }

  // ----- Messages that are not about the key -----

  lemma AboutConcat(a: seq<Message>, b: seq<Message>, key: string)
    requires Unmentioned(b, key)
    ensures forall i: nat :: About(a + b, i, key) <==> About(a, i, key)
  {
    forall i: nat
      ensures About(a + b, i, key) <==> About(a, i, key)
    {
      if i >= |a| {
        assert !About(b, i - |a|, key);
      }
    }
  }

  lemma SurvivesAmongOthers(a: seq<Message>, b: seq<Message>, base: nat, put: Put, content: bool)
    requires Unmentioned(b, put.key)
    ensures PutSurvives(a + b, base, put, content) <==> PutSurvives(a, base, put, content)
  {
    AboutConcat(a, b, put.key);
    assert forall i: nat :: About(a, i, put.key) ==> (a + b)[i] == a[i];
    assert forall i: nat :: RefusedAt(a + b, i, put.key) <==> RefusedAt(a, i, put.key);
  }

  /** Others put, and messages not about the key are dealt with: its fate stays decided. */
  lemma FateStays(base: Log, p: Pending, l: Log, p': Pending, l': Log, key: string, content: bool)
    requires FateDecided(base, p, l, key, content) && KeptAt(p, l, p', l', key)
    requires Idle(l) && Idle(base) && l.sent <= l'.sent && |base.sent| <= |l.sent|
    requires PutsSince(base, l) && PutsSince(l, l') && Unmentioned(SentSince(l, l'), key)
    ensures FateDecided(base, p', l', key, content)
  {
    var more := SentSince(l, l');
    assert l'.sent == l.sent + more;
    AboutConcat(l.sent, more, key);
    forall q: nat | LastPutOf(base, l', key, q)
      ensures StoredPut(p', l', q) <==> PutSurvives(l'.sent, |base.sent|, l'.puts[q], content)
    {
      LastPutTwice(base, l, l', key, q);
      if q < |l.puts| {
        SurvivesAmongOthers(l.sent, more, |base.sent|, l.puts[q], content);
      }
    }
  }

  lemma UntouchedStays(e: Entry, base: Log, p: Pending, l: Log, p': Pending, l': Log)
    requires Untouched(e, base, p, l) && KeptAt(p, l, p', l', Key(e))
    requires l.sent <= l'.sent && |base.sent| <= |l.sent| && base.puts <= l.puts <= l'.puts
    requires Unmentioned(SentSince(l, l'), Key(e))
    ensures Untouched(e, base, p', l')
  {
    assert SentSince(base, l') == SentSince(base, l) + SentSince(l, l');
    AboutConcat(SentSince(base, l), SentSince(l, l'), Key(e));
    forall q: nat | LastPutOf(base, l', Key(e), q)
      ensures StoredPut(p', l', q)
    {
      LastPutTwice(base, l, l', Key(e), q);
    }
    if NoPutStored(base, p', l', Key(e)) {
      NoPutBefore(base, p, l, p', l', Key(e));
    }
  }

  /** What has become of an entry of the snapshot, and of one put over it: if the last put is what is stored, it was to
      survive the messages; if not, what is left of the entry is what the messages demand. */
  ghost predicate Outcome(e: Entry, base: Log, p: Pending, l: Log) {
    && FateDecided(base, p, l, Key(e), IsContent(e.kind))
    && (NoPutStored(base, p, l, Key(e)) ==> Done(e, SentSince(base, l), p))
  }

  lemma OutcomeStays(e: Entry, base: Log, p: Pending, l: Log, p': Pending, l': Log)
    requires Outcome(e, base, p, l) && KeptAt(p, l, p', l', Key(e))
    requires Idle(l) && Idle(base) && l.sent <= l'.sent && base.sent <= l.sent
    requires PutsSince(base, l) && PutsSince(l, l') && Unmentioned(SentSince(l, l'), Key(e))
    ensures Outcome(e, base, p', l')
  {
    FateStays(base, p, l, p', l', Key(e), IsContent(e.kind));
    if NoPutStored(base, p', l', Key(e)) {
      NoPutBefore(base, p, l, p', l', Key(e));
      assert SentSince(base, l') == SentSince(base, l) + SentSince(l, l');
      DoneAmongOthers(e, SentSince(base, l), SentSince(l, l'), p, p');
    }
  }

  // ----- Part way through a group of contents -----

  ghost predicate DueFrom(e: Entry, messages: seq<Message>, start: nat) {
    exists ch: Channel :: !ch.Direct? && Flag(e, ch) && !AcceptedFrom(messages, start, e.id, ch)
  }

  /** Whether an entry put over the copy of `e` is still stored after these messages, the first about `e` no earlier
      than `start`: until the copy is refused or finished. */
  ghost predicate Outlives(e: Entry, messages: seq<Message>, start: nat, from: nat) {
    AnyAbout(messages, from, e.id) ==> AllTaken(messages, from, e.id) && DueFrom(e, messages, start)
  }

  function DealtWith(l: Log): seq<Message> {
    if l.dealt <= |l.sent| then l.sent[..l.dealt] else l.sent
  }

  ghost predicate FateSoFar(e: Entry, base: Log, start: nat, p: Pending, l: Log) {
    forall q: nat :: LastPutOf(base, l, e.id, q) ==>
      (StoredPut(p, l, q) <==> Outlives(e, DealtWith(l), start, l.puts[q].dealt))
  }

  /** The messages dealt with from the start of the group on. */
  function AnsweredSince(start: nat, l: Log): seq<Message> {
    if start <= |DealtWith(l)| then DealtWith(l)[start..] else []
  }

  /** Part way through the group: whether a put is stored follows from the answers so far, and if none is, so does what
      is left of the entry. */
  ghost predicate EntrySoFar(e: Entry, base: Log, start: nat, p: Pending, l: Log) {
    && FateSoFar(e, base, start, p, l)
    && (NoPutStored(base, p, l, e.id) ==> Handled(e, AnsweredSince(start, l), p))
  }

  lemma EntryStarts(e: Entry, base: Log, p: Pending, l: Log)
    requires Untouched(e, base, p, l) && Unsent(e) && IsContent(e.kind)
    requires Idle(base) && Idle(l) && PutsSince(base, l) && |base.sent| <= |l.sent|
    ensures EntrySoFar(e, base, |l.sent|, p, l)
  {
    UnmentionedSince(base, l, e.id);
    assert DealtWith(l) == l.sent && AnsweredSince(|l.sent|, l) == [];
    if NoPutStored(base, p, l, e.id) {
      HandledStart(e, p);
    }
  }

  lemma OutlivesAmongOthers(e: Entry, a: seq<Message>, b: seq<Message>, start: nat, from: nat)
    requires Unmentioned(b, e.id)
    ensures Outlives(e, a + b, start, from) <==> Outlives(e, a, start, from)
  {
    AboutConcat(a, b, e.id);
    assert forall i: nat :: About(a, i, e.id) ==> (a + b)[i] == a[i];
    assert forall i: nat, ch: Channel :: AcceptedAt(a + b, i, e.id, ch) <==> AcceptedAt(a, i, e.id, ch);
  }

  /** Others put, while no answer about the entry is dealt with. */
  lemma FateGoesOn(e: Entry, base: Log, start: nat, p: Pending, l: Log, p': Pending, l': Log)
    requires FateSoFar(e, base, start, p, l) && KeptAt(p, l, p', l', e.id)
    requires base.puts <= l.puts && PutsAfter(l, l') && l.dealt <= |l.sent|
    requires DealtWith(l) <= DealtWith(l') && Unmentioned(DealtWith(l')[l.dealt..], e.id)
    ensures FateSoFar(e, base, start, p', l')
  {
    var more := DealtWith(l')[l.dealt..];
    assert DealtWith(l') == DealtWith(l) + more;
    AboutConcat(DealtWith(l), more, e.id);
    forall q: nat | LastPutOf(base, l', e.id, q)
      ensures StoredPut(p', l', q) <==> Outlives(e, DealtWith(l'), start, l'.puts[q].dealt)
    {
      LastPutTwice(base, l, l', e.id, q);
      if q < |l.puts| {
        OutlivesAmongOthers(e, DealtWith(l), more, start, l.puts[q].dealt);
      }
    }
  }

  lemma OutlivesSnoc(e: Entry, messages: seq<Message>, m: Message, start: nat, from: nat)
    requires from <= |messages| && e.id in m.ids
    ensures Outlives(e, messages + [m], start, from) <==>
            m.ok && AllTaken(messages, from, e.id) && DueFrom(e, messages + [m], start)
  {
    var more := messages + [m];
    assert About(more, |messages|, e.id);
    assert forall i: nat :: i < |messages| ==> (About(more, i, e.id) <==> About(messages, i, e.id));
    assert forall i: nat :: i < |messages| ==> more[i] == messages[i];
  }

  lemma StillDueSnoc(e: Entry, messages: seq<Message>, m: Message, start: nat)
    requires start <= |messages| && DueFrom(e, messages + [m], start)
    ensures DueFrom(e, messages, start)
  {
    var ch: Channel :| !ch.Direct? && Flag(e, ch) && !AcceptedFrom(messages + [m], start, e.id, ch);
    AcceptedSnoc(messages, m, start, e.id, ch);
  }

  /** Counting from where the group started is counting the group's own messages. */
  lemma DueSinceStart(e: Entry, messages: seq<Message>, start: nat)
    requires start <= |messages|
    ensures DueFrom(e, messages, start) <==> StillDue(e, messages[start..])
  {
    var answered := messages[start..];
    forall ch: Channel
      ensures AcceptedFrom(messages, start, e.id, ch) <==> Accepted(answered, e.id, ch)
    {
      if i: nat :| start <= i && AcceptedAt(messages, i, e.id, ch) {
        assert AcceptedAt(answered, i - start, e.id, ch);
      }
      if i: nat :| AcceptedAt(answered, i, e.id, ch) {
        assert AcceptedAt(messages, start + i, e.id, ch);
      }
    }
  }

  /** The answer to a message about the entry is dealt with; `copy` is the copy afterwards. */
  lemma FateAnswered(e: Entry, copy: Entry, base: Log, start: nat, m: Message, p: Pending, l: Log, p': Pending, l': Log)
    requires FateSoFar(e, base, start, p, l) && l'.puts == l.puts && start <= l.dealt <= |l.sent|
    requires DealtWith(l') == DealtWith(l) + [m] && e.id in m.ids && copy.id == e.id
    requires Unsent(copy) <==> StillDue(e, DealtWith(l')[start..])
    requires EffectAt(copy, true, m.ok, p, p') && (!m.ok ==> copy.retries > 0)
    requires forall i :: 0 <= i < |l.puts| ==> Fresh(l.puts[i].entry) && l.puts[i].dealt <= l.dealt
    ensures FateSoFar(e, base, start, p', l')
  {
    DueSinceStart(e, DealtWith(l'), start);
    forall q: nat | LastPutOf(base, l', e.id, q)
      ensures StoredPut(p', l', q) <==> Outlives(e, DealtWith(l'), start, l'.puts[q].dealt)
    {
      assert LastPutOf(base, l, e.id, q);
      OutlivesSnoc(e, DealtWith(l), m, start, l.puts[q].dealt);
      if m.ok && Unsent(copy) {
        StillDueSnoc(e, DealtWith(l), m, start);
      }
    }
  }

  ghost predicate EntriesSoFar(init: seq<Entry>, base: Log, start: nat, p: Pending, l: Log) {
    forall j :: 0 <= j < |init| ==> EntrySoFar(init[j], base, start, p, l)
  }

  lemma EntriesStart(init: seq<Entry>, base: Log, p: Pending, l: Log)
    requires forall j :: 0 <= j < |init| ==>
               Untouched(init[j], base, p, l) && Unsent(init[j]) && IsContent(init[j].kind)
    requires Idle(base) && Idle(l) && PutsSince(base, l) && |base.sent| <= |l.sent|
    ensures EntriesSoFar(init, base, |l.sent|, p, l)
  {
    forall j | 0 <= j < |init|
      ensures EntrySoFar(init[j], base, |l.sent|, p, l)
    {
      EntryStarts(init[j], base, p, l);
    }
  }

  /** Others put, and perhaps one more message is sent; no answer is dealt with. */
  lemma EntryWaits(e: Entry, base: Log, start: nat, p: Pending, l: Log, p': Pending, l': Log)
    requires EntrySoFar(e, base, start, p, l) && Idle(l) && base.puts <= l.puts
    requires PutsOnly(p, l, p', l') && l.sent <= l'.sent
    ensures EntrySoFar(e, base, start, p', l')
  {
    assert DealtWith(l) == l.sent && DealtWith(l') == l.sent;
    assert KeptAt(p, l, p', l', e.id);
    FateGoesOn(e, base, start, p, l, p', l');
    if NoPutStored(base, p', l', e.id) {
      NoPutBefore(base, p, l, p', l', e.id);
    }
  }

  lemma EntriesWait(init: seq<Entry>, base: Log, start: nat, p: Pending, l: Log, p': Pending, l': Log)
    requires EntriesSoFar(init, base, start, p, l) && Idle(l) && base.puts <= l.puts
    requires PutsOnly(p, l, p', l') && l.sent <= l'.sent
    ensures EntriesSoFar(init, base, start, p', l')
  {
    forall j | 0 <= j < |init|
      ensures EntrySoFar(init[j], base, start, p', l')
    {
      EntryWaits(init[j], base, start, p, l, p', l');
    }
  }

  /** A message about other entries is dealt with. */
  lemma FatePassed(e: Entry, base: Log, start: nat, p: Pending, l: Log, p': Pending, l': Log, m: Message)
    requires FateSoFar(e, base, start, p, l) && base.puts <= l.puts && l'.puts == l.puts
    requires DealtWith(l') == DealtWith(l) + [m] && l.dealt <= |l.sent|
    requires e.id !in m.ids && SameAt(p, p', e.id)
    ensures FateSoFar(e, base, start, p', l')
  {
    assert DealtWith(l')[l.dealt..] == [m];
    FateGoesOn(e, base, start, p, l, p', l');
  }

  /** One answer is being dealt with, at (p, l) and then (p', l'); `copy` and `copy'` are the entry's copy before and
      afterwards. */
  ghost predicate AnswerDealt(e: Entry, copy: Entry, copy': Entry, start: nat, m: Message, p: Pending, l: Log,
                              p': Pending, l': Log) {
    && l'.puts == l.puts && start <= l.dealt <= |l.sent| && DealtWith(l') == DealtWith(l) + [m] && !m.channel.Direct?
    && copy'.id == e.id && copy.retries >= 0
    && TallyOf(e, copy, AnsweredSince(start, l)) && TallyOf(e, copy', AnsweredSince(start, l) + [m])
    && EffectAt(copy', e.id in m.ids, m.ok, p, p')
    && (e.id in m.ids ==>
          Flag(copy, m.channel) && copy' == if m.ok then Clear(copy, m.channel) else Bump(copy))
  }

  lemma EntryAnswered(e: Entry, copy: Entry, copy': Entry, base: Log, start: nat, m: Message, p: Pending, l: Log,
                      p': Pending, l': Log)
    requires EntrySoFar(e, base, start, p, l) && base.puts <= l.puts
    requires AnswerDealt(e, copy, copy', start, m, p, l, p', l')
    requires forall i :: 0 <= i < |l.puts| ==> Fresh(l.puts[i].entry) && l.puts[i].dealt <= l.dealt
    ensures EntrySoFar(e, base, start, p', l')
  {
    assert AnsweredSince(start, l') == AnsweredSince(start, l) + [m];
    DueIffUnsent(e, copy', AnsweredSince(start, l'));
    if e.id in m.ids {
      FateAnswered(e, copy', base, start, m, p, l, p', l');
    } else {
      FatePassed(e, base, start, p, l, p', l', m);
    }
    LeftAnswered(e, copy, copy', base, start, m, p, l, p', l');
  }

  lemma LeftAnswered(e: Entry, copy: Entry, copy': Entry, base: Log, start: nat, m: Message, p: Pending, l: Log,
                     p': Pending, l': Log)
    requires AnswerDealt(e, copy, copy', start, m, p, l, p', l') && base.puts <= l.puts
    requires NoPutStored(base, p, l, e.id) ==> Handled(e, AnsweredSince(start, l), p)
    ensures NoPutStored(base, p', l', e.id) ==> Handled(e, AnsweredSince(start, l'), p')
  {
    assert AnsweredSince(start, l') == AnsweredSince(start, l) + [m];
    if e.id in m.ids && (m.ok ==> !Unsent(copy')) {
      HandledAnew(e, copy, copy', AnsweredSince(start, l), m, p, p');
    } else if NoPutStored(base, p', l', e.id) {
      NoPutBefore(base, p, l, p', l', e.id);
      HandledStep(e, copy, copy', AnsweredSince(start, l), m, p, p');
    }
  }

  /** A copy of the group when a batch is answered. */
  lemma CopyAnswered(init: seq<Entry>, copies: seq<Entry>, batch: seq<nat>, m: Message, start: nat, p: Pending, l: Log,
                     p': Pending, l': Log, kindOf: string -> Kind, j: nat)
    requires j < |init| && Tally(init, copies, AnsweredSince(start, l)) && CopiesOk(copies, p, l, kindOf)
    requires !m.channel.Direct? && BatchOk(copies, batch, m.channel) && m.ids == IdsAt(copies, batch)
    requires Effects(Answered(copies, batch, m.channel, m.ok), batch, m.ok, p, p')
    requires l'.puts == l.puts && start <= l.dealt <= |l.sent| && DealtWith(l') == DealtWith(l) + [m]
    ensures |Answered(copies, batch, m.channel, m.ok)| == |copies| == |init|
    ensures AnswerDealt(init[j], copies[j], Answered(copies, batch, m.channel, m.ok)[j], start, m, p, l, p', l')
  {
    var copies', answered := Answered(copies, batch, m.channel, m.ok), AnsweredSince(start, l);
    TallyStep(init, copies, answered, batch, m);
    InBatchIff(init, copies, batch, m, answered, j);
    assert TallyOf(init[j], copies[j], answered) && TallyOf(init[j], copies'[j], answered + [m]);
    assert EffectAt(copies'[j], j in batch, m.ok, p, p') && CopyOk(copies[j], p, l, kindOf);
  }

  lemma EntriesAnswered(base: Log, start: nat, p: Pending, l: Log, p': Pending, l': Log, init: seq<Entry>,
                        copies: seq<Entry>, batch: seq<nat>, m: Message, kindOf: string -> Kind)
    requires EntriesSoFar(init, base, start, p, l) && base.puts <= l.puts && PutsOk(l, kindOf)
    requires Tally(init, copies, AnsweredSince(start, l)) && CopiesOk(copies, p, l, kindOf)
    requires !m.channel.Direct? && BatchOk(copies, batch, m.channel) && m.ids == IdsAt(copies, batch)
    requires Effects(Answered(copies, batch, m.channel, m.ok), batch, m.ok, p, p')
    requires l'.puts == l.puts && start <= l.dealt <= |l.sent| && DealtWith(l') == DealtWith(l) + [m]
    ensures EntriesSoFar(init, base, start, p', l')
  {
    assert forall i :: 0 <= i < |l.puts| ==> PutOk(l.puts[i], l, kindOf);
    forall j | 0 <= j < |init|
      ensures EntrySoFar(init[j], base, start, p', l')
    {
      CopyAnswered(init, copies, batch, m, start, p, l, p', l', kindOf, j);
      EntryAnswered(init[j], copies[j], Answered(copies, batch, m.channel, m.ok)[j], base, start, m, p, l, p', l');
    }
  }

  // ----- A group of contents at its end -----

  /** Once the entry has gone out wherever it was due, its copy is unfinished if and only if a message about it was
      refused; so a put survives the rest if all of that is accepted, and something before it was refused. */
  lemma OutlivesIffRefused(e: Entry, messages: seq<Message>, base: nat, start: nat, put: Put)
    requires base <= start <= |messages| && base <= put.dealt && put.key == e.id
    requires SentOnce(e, messages[start..]) && NoneDirect(messages[start..])
    requires forall i: nat :: base <= i < start ==> !About(messages, i, e.id)
    ensures Outlives(e, messages, start, put.dealt) <==> PutSurvives(messages, base, put, true)
  {
    var answered := messages[start..];
    DueSinceStart(e, messages, start);
    if AllTaken(messages, put.dealt, e.id) {
      if StillDue(e, answered) {
        DueWasRefused(e, answered);
        var i: nat :| RefusedAt(answered, i, e.id);
        assert RefusedAt(messages, start + i, e.id);
      }
      if i: nat :| base <= i < put.dealt && RefusedAt(messages, i, e.id) {
        assert RefusedAt(answered, i - start, e.id);
        OnlyAnswer(e, answered, i - start, answered[i - start].channel);
      }
    }
  }

  lemma FateEnds(e: Entry, base: Log, start: nat, p: Pending, l: Log)
    requires FateSoFar(e, base, start, p, l) && Idle(l) && Idle(base) && PutsSince(base, l)
    requires |base.sent| <= start <= |l.sent|
    requires SentOnce(e, l.sent[start..]) && NoneDirect(l.sent[start..])
    requires forall i: nat :: |base.sent| <= i < start ==> !About(l.sent, i, e.id)
    ensures FateDecided(base, p, l, e.id, true)
  {
    assert DealtWith(l) == l.sent;
    forall q: nat | LastPutOf(base, l, e.id, q)
      ensures StoredPut(p, l, q) <==> PutSurvives(l.sent, |base.sent|, l.puts[q], true)
    {
      OutlivesIffRefused(e, l.sent, |base.sent|, start, l.puts[q]);
    }
  }

  /** When the group is done. */
  lemma EntryEnds(e: Entry, base: Log, start: nat, p: Pending, l: Log)
    requires EntrySoFar(e, base, start, p, l) && Idle(l) && Idle(base) && PutsSince(base, l) && IsContent(e.kind)
    requires |base.sent| <= start <= |l.sent|
    requires SentOnce(e, l.sent[start..]) && NoneDirect(l.sent[start..])
    requires forall i: nat :: |base.sent| <= i < start ==> !About(l.sent, i, e.id)
    ensures Outcome(e, base, p, l)
  {
    FateEnds(e, base, start, p, l);
    if NoPutStored(base, p, l, e.id) {
      assert AnsweredSince(start, l) == l.sent[start..];
      ContentDone(e, l.sent[start..], p);
      SinceStart(base, start, l, e.id);
      DoneAmongOthers(e, l.sent[|base.sent|..start], l.sent[start..], p, p);
    }
  }

  lemma SinceStart(base: Log, start: nat, l: Log, key: string)
    requires |base.sent| <= start <= |l.sent|
    requires forall i: nat :: |base.sent| <= i < start ==> !About(l.sent, i, key)
    ensures SentSince(base, l) == l.sent[|base.sent|..start] + l.sent[start..]
    ensures Unmentioned(l.sent[|base.sent|..start], key)
  {
    var before := l.sent[|base.sent|..start];
    forall i: nat
      ensures !About(before, i, key)
    {
      if i < |before| {
        assert before[i] == l.sent[|base.sent| + i] && !About(l.sent, |base.sent| + i, key);
      }
    }
  }

  // ----- Requests sent one by one -----

  /** Part way through a group of requests, the message of the j-th one being that with index `start + j`: an entry put
      over the j-th one is stored unless that one has been refused, and put back, since; if none is stored, the request
      is, put back or as it was. */
  ghost predicate RequestSoFar(data: seq<Entry>, oks: seq<bool>, base: Log, start: nat, p: Pending, l: Log, j: nat)
    requires j < |data|
  {
    && (forall q: nat :: LastPutOf(base, l, Key(data[j]), q) ==>
          (StoredPut(p, l, q) <==> !(j < |oks| && !oks[j] && l.puts[q].settled <= start + j)))
    && (NoPutStored(base, p, l, Key(data[j])) ==>
          Key(data[j]) in p && p[Key(data[j])] == if j < |oks| && !oks[j] then Bump(data[j]) else data[j])
  }

  ghost predicate RequestsSoFar(data: seq<Entry>, oks: seq<bool>, base: Log, start: nat, p: Pending, l: Log) {
    forall j :: 0 <= j < |data| ==> RequestSoFar(data, oks, base, start, p, l, j)
  }

  lemma RequestsStart(data: seq<Entry>, base: Log, p: Pending, l: Log)
    requires forall j :: 0 <= j < |data| ==> Untouched(data[j], base, p, l)
    ensures RequestsSoFar(data, [], base, |l.sent|, p, l)
  {
  }

  lemma RequestGoesOn(data: seq<Entry>, oks: seq<bool>, base: Log, start: nat, p: Pending, l: Log, p': Pending,
                      l': Log, j: nat)
    requires j < |data| && RequestSoFar(data, oks, base, start, p, l, j) && base.puts <= l.puts
    requires Interfered(p, l, p', l') && l.settled == start + |oks|
    ensures RequestSoFar(data, oks, base, start, p', l', j)
  {
    var key := Key(data[j]);
    assert KeptAt(p, l, p', l', key);
    forall q: nat | LastPutOf(base, l', key, q)
      ensures StoredPut(p', l', q) <==> !(j < |oks| && !oks[j] && l'.puts[q].settled <= start + j)
    {
      LastPutTwice(base, l, l', key, q);
    }
    if NoPutStored(base, p', l', key) {
      NoPutBefore(base, p, l, p', l', key);
    }
  }

  lemma RequestsGoOn(data: seq<Entry>, oks: seq<bool>, base: Log, start: nat, p: Pending, l: Log, p': Pending, l': Log)
    requires RequestsSoFar(data, oks, base, start, p, l) && Interfered(p, l, p', l') && base.puts <= l.puts
    requires l.settled == start + |oks|
    ensures RequestsSoFar(data, oks, base, start, p', l')
  {
    forall j | 0 <= j < |data|
      ensures RequestSoFar(data, oks, base, start, p', l', j)
    {
      RequestGoesOn(data, oks, base, start, p, l, p', l', j);
    }
  }

  lemma RequestsSame(data: seq<Entry>, oks: seq<bool>, base: Log, start: nat, p: Pending, l: Log, l': Log)
    requires RequestsSoFar(data, oks, base, start, p, l) && l'.puts == l.puts
    ensures RequestsSoFar(data, oks, base, start, p, l')
  {
    forall j | 0 <= j < |data|
      ensures RequestSoFar(data, oks, base, start, p, l', j)
    {
      assert RequestSoFar(data, oks, base, start, p, l, j);
      assert forall q: nat :: LastPutOf(base, l', Key(data[j]), q) <==> LastPutOf(base, l, Key(data[j]), q);
    }
  }

  /** The next request has been answered, and put back if it was refused. */
  lemma RequestAnswered(data: seq<Entry>, oks: seq<bool>, ok: bool, base: Log, start: nat, p: Pending, l: Log, l': Log,
                        kindOf: string -> Kind, j: nat)
    requires j < |data| && RequestSoFar(data, oks, base, start, p, l, j) && |oks| < |data| && DistinctKeys(data)
    requires data[|oks|].retries >= 0 && l.settled == start + |oks| && PutsOk(l, kindOf)
    requires l'.puts == l.puts
    ensures var e := data[|oks|];
            RequestSoFar(data, oks + [ok], base, start, if ok then p else p[Key(e) := Bump(e)], l', j)
  {
    var e, key := data[|oks|], Key(data[j]);
    var p' := if ok then p else p[Key(e) := Bump(e)];
    assert forall q: nat :: LastPutOf(base, l', key, q) <==> LastPutOf(base, l, key, q);
    forall q: nat | LastPutOf(base, l', key, q)
      ensures StoredPut(p', l', q) <==> !(j < |oks + [ok]| && !(oks + [ok])[j] && l'.puts[q].settled <= start + j)
    {
      assert PutOk(l.puts[q], l, kindOf);
    }
    if NoPutStored(base, p', l', key) && (j != |oks| || ok) {
      assert NoPutStored(base, p, l, key);
    }
  }

  lemma RequestsAnswered(data: seq<Entry>, oks: seq<bool>, ok: bool, base: Log, start: nat, p: Pending, l: Log, l': Log,
                         kindOf: string -> Kind)
    requires RequestsSoFar(data, oks, base, start, p, l) && |oks| < |data| && DistinctKeys(data)
    requires data[|oks|].retries >= 0 && l.settled == start + |oks| && PutsOk(l, kindOf) && l'.puts == l.puts
    ensures var e := data[|oks|];
            RequestsSoFar(data, oks + [ok], base, start, if ok then p else p[Key(e) := Bump(e)], l')
  {
    var p' := if ok then p else p[Key(data[|oks|]) := Bump(data[|oks|])];
    forall j | 0 <= j < |data|
      ensures RequestSoFar(data, oks + [ok], base, start, p', l', j)
    {
      RequestAnswered(data, oks, ok, base, start, p, l, l', kindOf, j);
    }
  }

  /** The accepted requests are deleted. */
  lemma RequestFateEnds(data: seq<Entry>, oks: seq<bool>, base: Log, start: nat, p: Pending, l: Log, p': Pending,
                        l': Log, j: nat)
    requires j < |data| && RequestSoFar(data, oks, base, start, p, l, j) && |oks| == |data| && DistinctKeys(data)
    requires l'.puts == l.puts && l'.sent == l.sent && start <= |l.sent|
    requires l.sent[start..] == DirectMessages(data, oks) && p' == p - KeysAnswered(data, oks, true)
    requires |base.sent| <= start && forall i: nat :: |base.sent| <= i < start ==> !About(l.sent, i, Key(data[j]))
    requires forall i :: |base.puts| <= i < |l.puts| ==> |base.sent| <= l.puts[i].dealt <= start
    ensures FateDecided(base, p', l', Key(data[j]), false)
  {
    var key := Key(data[j]);
    OwnMessage(data, oks, l.sent, start, j);
    forall q: nat | LastPutOf(base, l', key, q)
      ensures StoredPut(p', l', q) <==> PutSurvives(l'.sent, |base.sent|, l'.puts[q], false)
    {
      assert LastPutOf(base, l, key, q);
      var put := l.puts[q];
      assert About(l.sent, start + j, key) && (!oks[j] ==> RefusedAt(l.sent, start + j, key));
      assert forall i: nat :: put.dealt <= i && About(l.sent, i, key) ==> i == start + j;
      assert PutSurvives(l.sent, |base.sent|, put, false) <==> !oks[j] && start + j < put.settled;
    }
  }

  lemma RequestEnds(data: seq<Entry>, oks: seq<bool>, base: Log, start: nat, p: Pending, l: Log, p': Pending, l': Log,
                    j: nat)
    requires j < |data| && RequestSoFar(data, oks, base, start, p, l, j) && |oks| == |data| && DistinctKeys(data)
    requires l'.puts == l.puts && l'.sent == l.sent && start <= |l.sent| && !IsContent(data[j].kind)
    requires l.sent[start..] == DirectMessages(data, oks) && p' == p - KeysAnswered(data, oks, true)
    requires |base.sent| <= start && forall i: nat :: |base.sent| <= i < start ==> !About(l.sent, i, Key(data[j]))
    requires forall i :: |base.puts| <= i < |l.puts| ==> |base.sent| <= l.puts[i].dealt <= start
    ensures Outcome(data[j], base, p', l')
  {
    var key := Key(data[j]);
    RequestFateEnds(data, oks, base, start, p, l, p', l', j);
    OwnMessage(data, oks, l.sent, start, j);
    if NoPutStored(base, p', l', key) {
      if !oks[j] {
        assert forall q: nat :: LastPutOf(base, l, key, q) ==> LastPutOf(base, l', key, q);
        assert NoPutStored(base, p, l, key);
      }
      DirectDone(data, oks, p', j);
      SinceStart(base, start, l, key);
      DoneAmongOthers(data[j], l.sent[|base.sent|..start], l.sent[start..], p', p');
    }
  }

  /** Of the group's messages, just one is about a request. */
  lemma OwnMessage(data: seq<Entry>, oks: seq<bool>, messages: seq<Message>, start: nat, j: nat)
    requires |oks| == |data| && DistinctKeys(data) && j < |data| && start <= |messages|
    requires messages[start..] == DirectMessages(data, oks)
    ensures forall i: nat :: start <= i ==> (About(messages, i, Key(data[j])) <==> i == start + j)
    ensures start + j < |messages| && messages[start + j].ok == oks[j]
    ensures Key(data[j]) in KeysAnswered(data, oks, true) <==> oks[j]
  {
    forall i: nat | start <= i
      ensures About(messages, i, Key(data[j])) <==> i == start + j
    {
      if i < |messages| {
        assert messages[i] == DirectMessages(data, oks)[i - start];
      }
    }
    assert messages[start + j] == DirectMessages(data, oks)[j];
  }
}
