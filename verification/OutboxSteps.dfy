/** What each step of the telemetry handler keeps, and what it leaves behind of the entries it is about. */
module OutboxSteps {
  import opened OutboxModel
  import opened Payload
  import opened Batching
  import opened Accounts
  import opened Fates
  import opened Sources

  /** A moment between two steps: what a stop right there would leave, and what had been sent by then. */
  datatype Point = Point(pending: Pending, log: Log)

  ghost predicate Restartable(p: Point, kindOf: string -> Kind) {
    && Safe(p.pending, p.log) && WellKept(p.pending, p.log, kindOf)
    && FromPuts(p.log) && LostOrStored(p.pending, p.log)
  }

  ghost predicate AllRestartable(points: seq<Point>, kindOf: string -> Kind) {
    forall i :: 0 <= i < |points| ==> Restartable(points[i], kindOf)
  }

  lemma NothingElseLostAt(points: seq<Point>, kindOf: string -> Kind)
    requires AllRestartable(points, kindOf)
    ensures forall i :: 0 <= i < |points| ==> NothingElseLost(points[i].pending, points[i].log)
  {
    forall i | 0 <= i < |points|
      ensures NothingElseLost(points[i].pending, points[i].log)
    {
      assert Restartable(points[i], kindOf);
      OnlyOvertakenLost(points[i].pending, points[i].log);
    }
  }

  /** The log a restart goes on with: the handler's copies are gone, and retry counts are followed from what is
      stored. */
  ghost function Reopened(stored: Pending, before: Log): Log {
    before.(dealt := |before.sent|, settled := |before.sent|, held := map[], inFlight := {},
            rounds := before.rounds + [before.dealt],
            from := map k | k in before.from ::
              if k in stored then before.from[k].(base := FailCount(before.sent, k) - stored[k].retries)
              else before.from[k])
  }

  lemma ReopenedGood(stored: Pending, before: Log, kindOf: string -> Kind)
    requires Restartable(Point(stored, before), kindOf)
    ensures Good(stored, Reopened(stored, before), kindOf) && Sourced(stored, Reopened(stored, before))
    ensures Idle(Reopened(stored, before))
  {
    var log := Reopened(stored, before);
    forall k, ch: Channel | k in log.from && !ch.Direct?
      ensures SafeAt(stored, log, k, ch)
    {
      assert SafeAt(stored, before, k, ch);
    }
    assert forall i :: 0 <= i < |before.puts| ==> PutOk(before.puts[i], before, kindOf);
    RoundKeepsSourced(stored, before, log, map[]);
  }

  // ----- What a group of entries leaves alone -----

  ghost predicate OnlyAbout(messages: seq<Message>, keys: set<string>) {
    forall i: nat, k :: About(messages, i, k) ==> k in keys
  }

  /** Between the two moments the entries under these keys were handled: elsewhere only others' puts have changed
      anything. */
  ghost predicate Elsewhere(p: Pending, l: Log, p': Pending, l': Log, keys: set<string>) {
    && l.sent <= l'.sent && l.dealt <= l'.dealt && PutsSince(l, l')
    && l'.held == l.held && l.from.Keys <= l'.from.Keys && OnlyAbout(SentSince(l, l'), keys)
    && forall k {:trigger KeptAt(p, l, p', l', k)} :: k !in keys ==> KeptAt(p, l, p', l', k)
  }

  lemma ElsewhereTwice(p: Pending, l: Log, p1: Pending, l1: Log, p2: Pending, l2: Log, keys: set<string>,
                       keys': set<string>)
    requires Elsewhere(p, l, p1, l1, keys) && Elsewhere(p1, l1, p2, l2, keys') && keys' <= keys
    ensures Elsewhere(p, l, p2, l2, keys)
  {
    PutsSinceTwice(l, l1, l2);
    OnlyAboutSince(l, l1, l2, keys);
    forall k | k !in keys
      ensures KeptAt(p, l, p2, l2, k)
    {
      assert KeptAt(p, l, p1, l1, k) && KeptAt(p1, l1, p2, l2, k);
      KeptTwice(p, l, p1, l1, p2, l2, k);
    }
  }

  lemma OnlyAboutSince(l: Log, l1: Log, l2: Log, keys: set<string>)
    requires l.sent <= l1.sent <= l2.sent
    requires OnlyAbout(SentSince(l, l1), keys) && OnlyAbout(SentSince(l1, l2), keys)
    ensures OnlyAbout(SentSince(l, l2), keys)
  {
    var a, b := SentSince(l, l1), SentSince(l1, l2);
    assert SentSince(l, l2) == a + b;
    forall i: nat, k | About(a + b, i, k)
      ensures k in keys
    {
      assert if i < |a| then About(a, i, k) else About(b, i - |a|, k);
    }
  }

  lemma PutsElsewhere(p: Pending, l: Log, p': Pending, l': Log, keys: set<string>)
    requires PutsOnly(p, l, p', l') && l.sent <= l'.sent && OnlyAbout(SentSince(l, l'), keys)
    ensures Elsewhere(p, l, p', l', keys)
  {
  }

  lemma InterferedElsewhere(p: Pending, l: Log, p': Pending, l': Log, keys: set<string>)
    requires Interfered(p, l, p', l')
    ensures Elsewhere(p, l, p', l', keys)
  {
    assert SentSince(l, l') == [];
    PutsElsewhere(p, l, p', l', keys);
  }

  lemma StaysElsewhere(p: Pending, l: Log, keys: set<string>)
    ensures Elsewhere(p, l, p, l, keys)
  {
    NotInterfered(p, l);
    InterferedElsewhere(p, l, p, l, keys);
  }

  /** A step that sends messages about these keys or changes what is stored under them. */
  lemma StepElsewhere(p: Pending, l: Log, p': Pending, l': Log, ms: seq<Message>, keys: set<string>)
    requires l'.sent == l.sent + ms && OnlyAbout(ms, keys) && l.dealt <= l'.dealt
    requires l'.puts == l.puts && l'.held == l.held && l'.rounds == l.rounds && l'.from.Keys == l.from.Keys
    requires forall k :: k !in keys ==> SameAt(p, p', k)
    ensures Elsewhere(p, l, p', l', keys)
  {
    assert SentSince(l, l') == ms;
    forall k | k !in keys
      ensures KeptAt(p, l, p', l', k)
    {
      assert SameAt(p, p', k);
    }
  }

  lemma ElsewhereKeepsCopies(recs: seq<Entry>, p: Pending, l: Log, p': Pending, l': Log, kindOf: string -> Kind,
                             keys: set<string>)
    requires CopiesOk(recs, p, l, kindOf) && Elsewhere(p, l, p', l', keys) && l'.inFlight == l.inFlight
    requires forall j :: 0 <= j < |recs| ==> recs[j].id !in keys
    ensures CopiesOk(recs, p', l', kindOf)
  {
    forall j | 0 <= j < |recs|
      ensures CopyOk(recs[j], p', l', kindOf)
    {
      assert CopyOk(recs[j], p, l, kindOf) && KeptAt(p, l, p', l', recs[j].id);
      KeptCopy(recs[j], p, l, p', l', kindOf);
    }
  }

  // ----- One answer -----

  /** The bucket before and after one batch has been answered. */
  ghost predicate BucketAfter(copies: seq<Entry>, batch: seq<nat>, ch: Channel, ok: bool, p: Pending, p': Pending) {
    var copies' := Answered(copies, batch, ch, ok);
    if ok then p' == p - Finished(copies', batch) else WrittenBack(copies', batch, p, p')
  }

  /** The keys at which an answer changes what is stored; `copies` are the copies afterwards. */
  ghost function AnswerKeys(copies: seq<Entry>, batch: seq<nat>, ok: bool): set<string> {
    if ok then Finished(copies, batch) else BatchKeys(copies, batch)
  }

  /** What dealing with an answer does at the key of one copy. */
  lemma OneAnswer(copies: seq<Entry>, batch: seq<nat>, ch: Channel, ok: bool, p: Pending, p': Pending, j: nat)
    requires DistinctIds(copies) && j < |copies|
    requires BucketAfter(copies, batch, ch, ok, p, p')
    ensures EffectAt(Answered(copies, batch, ch, ok)[j], j in batch, ok, p, p')
  {
    var copies' := Answered(copies, batch, ch, ok);
    assert forall i :: 0 <= i < |copies| ==> copies'[i].id == copies[i].id;
    if ok && j in batch && !Unsent(copies'[j]) {
      assert copies'[j].id in Finished(copies', batch);
    }
  }

  /** What dealing with an answer does to the bucket: its own effect at each copy, and nothing else. */
  lemma AnswerEffects(copies: seq<Entry>, batch: seq<nat>, ch: Channel, ok: bool, p: Pending, p': Pending, log: Log,
                      kindOf: string -> Kind)
    requires CopiesOk(copies, p, log, kindOf) && BatchOk(copies, batch, ch) && BucketAfter(copies, batch, ch, ok, p, p')
    ensures Effects(Answered(copies, batch, ch, ok), batch, ok, p, p')
  {
    var copies' := Answered(copies, batch, ch, ok);
    forall j | 0 <= j < |copies'|
      ensures EffectAt(copies'[j], j in batch, ok, p, p') && Key(copies'[j]) == copies'[j].id == copies[j].id
      ensures j in batch ==> copies'[j].id in p
    {
      assert CopyOk(copies[j], p, log, kindOf);
      BatchIds(copies, batch, ch);
      OneAnswer(copies, batch, ch, ok, p, p', j);
    }
    assert AnswerKeys(copies', batch, ok) <= KeysOf(copies');
  }

  /** Dealing with either answer keeps the invariant and the copies. */
  lemma AnswerKeepsGood(copies: seq<Entry>, batch: seq<nat>, ch: Channel, ok: bool, p: Pending, p': Pending, log: Log,
                        kindOf: string -> Kind)
    requires Good(p, log, kindOf) && CopiesOk(copies, p, log, kindOf) && BatchOk(copies, batch, ch)
    requires ok ==> log.inFlight == {} && BatchAccepted(copies, batch, ch, log)
    requires !ok ==> log.inFlight == BatchKeys(copies, batch)
    requires BucketAfter(copies, batch, ch, ok, p, p')
    ensures var copies' := Answered(copies, batch, ch, ok);
            var log' := AfterAnswer(log, AnswerKeys(copies', batch, ok));
            Good(p', log', kindOf) && CopiesOk(copies', p', log', kindOf)
  {
    if ok {
      DeleteKeepsGood(copies, batch, p, log, kindOf, ch);
      DeleteKeepsCopies(copies, batch, p, log, kindOf, ch);
    } else {
      WriteBackKeepsGood(copies, batch, p, p', log, kindOf, ch);
      WriteBackKeepsCopies(copies, batch, p, p', log, kindOf);
      BumpedKeys(copies, batch);
    }
  }

  lemma AnsweredCopyAt(copies: seq<Entry>, batch: seq<nat>, ch: Channel, ok: bool, j: nat)
    requires j < |copies| && j in batch
    ensures |Answered(copies, batch, ch, ok)| == |copies|
    ensures var copy := Answered(copies, batch, ch, ok)[j];
            copy.id == copies[j].id && (!ok ==> copy.retries == copies[j].retries + 1)
  {
  }

  /** Whatever dealing with an answer leaves under the batch's keys comes from where its copies do. */
  lemma AnswerSourced(copies: seq<Entry>, batch: seq<nat>, ch: Channel, ok: bool, p: Pending, p': Pending, log: Log,
                      kindOf: string -> Kind)
    requires Sourced(p, log) && PutsOk(log, kindOf) && Awaited(log, BatchKeys(copies, batch))
    requires CopiesOk(copies, p, log, kindOf) && BucketAfter(copies, batch, ch, ok, p, p')
    ensures Sourced(p', AfterAnswer(log, AnswerKeys(Answered(copies, batch, ch, ok), batch, ok)))
  {
    var copies' := Answered(copies, batch, ch, ok);
    var keys := AnswerKeys(copies', batch, ok);
    forall k | k in keys
      ensures k in BatchKeys(copies, batch) && IsContent(kindOf(k)) && k in log.held
      ensures !ok ==> k in p' && p'[k].retries > 0
    {
      var j: nat :| j < |copies'| && j in batch && copies'[j].id == k;
      AnsweredCopyAt(copies, batch, ch, ok, j);
      assert CopyOk(copies[j], p, log, kindOf);
    }
    AnswerKeepsSourced(p, p', log, kindOf, keys);
  }

  /** A batch sent amid others' puts, and its answer dealt with, touch only the copies' keys. */
  lemma FlushElsewhere(p: Pending, l: Log, p1: Pending, l1: Log, p2: Pending, l2: Log, copies: seq<Entry>,
                       batch: seq<nat>, m: Message, kindOf: string -> Kind)
    requires PutsOnly(p, l, p1, l1) && l1.sent == l.sent + [m]
    requires BatchOk(copies, batch, m.channel) && m.ids == IdsAt(copies, batch) && CopiesOk(copies, p1, l1, kindOf)
    requires Effects(Answered(copies, batch, m.channel, m.ok), batch, m.ok, p1, p2)
    requires l2.sent == l1.sent && l2.puts == l1.puts && l2.held == l1.held && l2.from.Keys == l1.from.Keys
    requires l1.dealt <= l2.dealt && l2.rounds == l1.rounds
    ensures Elsewhere(p, l, p2, l2, KeysOf(copies))
  {
    var keys, copies' := KeysOf(copies), Answered(copies, batch, m.channel, m.ok);
    CopiesKeys(copies, p1, l1, kindOf);
    AnsweredKeys(copies, batch, m.channel, m.ok);
    MessageAboutBatch(copies, batch, m);
    assert SentSince(l, l1) == [m];
    PutsElsewhere(p, l, p1, l1, keys);
    assert l2.sent == l1.sent + [];
    StepElsewhere(p1, l1, p2, l2, [], keys);
    ElsewhereTwice(p, l, p1, l1, p2, l2, keys, keys);
  }

  lemma AnsweredKeys(copies: seq<Entry>, batch: seq<nat>, ch: Channel, ok: bool)
    ensures KeysOf(Answered(copies, batch, ch, ok)) == KeysOf(copies)
  {
    var copies' := Answered(copies, batch, ch, ok);
    assert forall j :: 0 <= j < |copies| ==> Key(copies'[j]) == Key(copies[j]);
  }

  lemma CopiesKeys(copies: seq<Entry>, p: Pending, l: Log, kindOf: string -> Kind)
    requires CopiesOk(copies, p, l, kindOf)
    ensures forall j :: 0 <= j < |copies| ==> Key(copies[j]) == copies[j].id && kindOf(copies[j].id) == copies[j].kind
  {
    assert forall j :: 0 <= j < |copies| ==> CopyOk(copies[j], p, l, kindOf);
  }

  lemma MessageAboutBatch(copies: seq<Entry>, batch: seq<nat>, m: Message)
    requires BatchOk(copies, batch, m.channel) && m.ids == IdsAt(copies, batch)
    requires forall j :: 0 <= j < |copies| ==> Key(copies[j]) == copies[j].id
    ensures OnlyAbout([m], KeysOf(copies))
  {
    BatchIds(copies, batch, m.channel);
  }

  // ----- A group on its way -----

  /** Where the handling of one group of entries started: the bucket, the log, the moments recorded and the group; and
      the log when the handler took its copies. */
  datatype Origin = Origin(pending: Pending, log: Log, marks: nat, init: seq<Entry>, kind: Kind, base: Log)

  ghost predicate SameEntries(o: Origin, copies: seq<Entry>) {
    && |copies| == |o.init| && IsContent(o.kind)
    && forall j :: 0 <= j < |copies| ==> copies[j].id == o.init[j].id && copies[j].kind == o.init[j].kind == o.kind
  }

  lemma SameAnswered(o: Origin, copies: seq<Entry>, batch: seq<nat>, ch: Channel, ok: bool)
    requires SameEntries(o, copies)
    ensures SameEntries(o, Answered(copies, batch, ch, ok))
  {
  }

  lemma ReachedAnswered(init: seq<Entry>, copies: seq<Entry>, i: nat, batch: seq<nat>, ch: Channel, ok: bool)
    requires Reached(init, copies, i) && forall k :: 0 <= k < |batch| ==> batch[k] < i
    ensures Reached(init, Answered(copies, batch, ch, ok), i)
  {
  }

  /** A group that nothing has happened to since the copies were taken, but by others. */
  ghost predicate GroupUntouched(data: seq<Entry>, base: Log, p: Pending, l: Log) {
    && Idle(base) && PutsSince(base, l) && base.sent <= l.sent
    && forall j :: 0 <= j < |data| ==> Untouched(data[j], base, p, l)
  }

  lemma Begin(o: Origin, size: nat)
    requires forall j :: 0 <= j < |o.init| ==> o.init[j].kind == o.kind && Unsent(o.init[j])
    requires IsContent(o.kind) && Idle(o.log) && GroupUntouched(o.init, o.base, o.pending, o.log)
    ensures Lane(o.init, o.init, 0, Cloud, [], [], [], size) && Lane(o.init, o.init, 0, IoT, [], [], [], size)
    ensures Reached(o.init, o.init, 0) && SoFar(o, o.init, [], o.pending, o.log)
  {
    LaneBegins(o.init, Cloud, size);
    LaneBegins(o.init, IoT, size);
    TallyStart(o.init);
    StaysElsewhere(o.pending, o.log, KeysOf(o.init));
    EntriesStart(o.init, o.base, o.pending, o.log);
  }

  lemma LaneBegins(init: seq<Entry>, ch: Channel, size: nat)
    ensures Lane(init, init, 0, ch, [], [], [], size) && Reached(init, init, 0)
  {
    assert Flagged(init[..0], ch) == [];
    assert Ids([]) == [] && Payloads([], ch) == [] && IdsAt(init, []) == [];
    assert IdsOn([], ch) == [] && PayloadsOn([], ch) == [];
  }

  /** Part way through a group: what its messages have left in the bucket of the copied entries and of entries put
      over them. */
  ghost predicate SoFar(o: Origin, copies: seq<Entry>, answered: seq<Message>, p: Pending, l: Log) {
    && SameEntries(o, copies) && l.sent == o.log.sent + answered
    && Elsewhere(o.pending, o.log, p, l, KeysOf(o.init))
    && Tally(o.init, copies, answered) && NoneDirect(answered) && NothingNew(o.pending, o.log, p, l)
    && EntriesSoFar(o.init, o.base, |o.log.sent|, p, l) && o.base.puts <= o.log.puts
  }

  /** A message that carries a batch with what was gathered for it. */
  lemma BatchTold(o: Origin, copies: seq<Entry>, batch: seq<nat>, m: Message, answered: seq<Message>)
    requires SameEntries(o, copies) && BatchOk(copies, batch, m.channel) && m.ids == IdsAt(copies, batch)
    requires BatchTells(o.init, batch, m.channel, m.payload) && Told(o.init, answered)
    ensures Told(o.init, answered + [m])
  {
    forall n | 0 <= n < |m.ids|
      ensures TellsOfOne(o.init, m.ids[n], m.channel, m.payload[n])
    {
      var j := batch[n];
      assert o.init[j].id == copies[j].id == m.ids[n] && IsContent(o.init[j].kind);
      assert TellsUnder(o.init[j], m.ids[n], m.channel, m.payload[n]);
    }
    ToldSnoc(o.init, answered, m);
  }

  lemma SameKeys(o: Origin, copies: seq<Entry>)
    requires SameEntries(o, copies)
    ensures KeysOf(copies) == KeysOf(o.init) && IsContentGroup(o.init)
  {
    assert forall j :: 0 <= j < |copies| ==> Key(copies[j]) == Key(o.init[j]);
  }

  lemma FlushAddsNothing(o: Origin, p: Pending, l: Log, p1: Pending, l1: Log, p2: Pending, l2: Log)
    requires NothingNew(o.pending, o.log, p, l) && PutsOnly(p, l, p1, l1) && p2.Keys <= p1.Keys && l2.puts == l1.puts
    requires o.log.puts <= l.puts
    ensures NothingNew(o.pending, o.log, p2, l2)
  {
    forall k | k in p2
      ensures k in o.pending || !Undisturbed(o.log, l2, k)
    {
      UndisturbedTwice(o.log, l, l2, k);
      assert k in p2.Keys && KeptAt(p, l, p1, l1, k);
    }
  }

  /** One more batch: sent amid others' puts, and at (p1, l1) its answer dealt with. */
  lemma SoFarStep(o: Origin, p: Pending, l: Log, p1: Pending, l1: Log, p2: Pending, l2: Log, copies: seq<Entry>,
                  batch: seq<nat>, m: Message, answered: seq<Message>, kindOf: string -> Kind)
    requires SoFar(o, copies, answered, p, l) && Idle(l)
    requires CopiesOk(copies, p1, l1, kindOf) && PutsOk(l1, kindOf)
    requires BatchOk(copies, batch, m.channel) && !m.channel.Direct? && m.ids == IdsAt(copies, batch)
    requires PutsOnly(p, l, p1, l1) && l1.sent == l.sent + [m]
    requires BucketAfter(copies, batch, m.channel, m.ok, p1, p2)
    requires l2 == AfterAnswer(l1, AnswerKeys(Answered(copies, batch, m.channel, m.ok), batch, m.ok))
    ensures SoFar(o, Answered(copies, batch, m.channel, m.ok), answered + [m], p2, l2)
  {
    SameKeys(o, copies);
    AnswerEffects(copies, batch, m.channel, m.ok, p1, p2, l1, kindOf);
    assert l2.from.Keys == l1.from.Keys;
    FlushElsewhere(p, l, p1, l1, p2, l2, copies, batch, m, kindOf);
    ElsewhereTwice(o.pending, o.log, p, l, p2, l2, KeysOf(o.init), KeysOf(o.init));
    FlushAddsNothing(o, p, l, p1, l1, p2, l2);
    assert DealtWith(l1) == l.sent && AnsweredSince(|o.log.sent|, l1) == answered;
    EntriesWait(o.init, o.base, |o.log.sent|, p, l, p1, l1);
    EntriesAnswered(o.base, |o.log.sent|, p1, l1, p2, l2, o.init, copies, batch, m, kindOf);
    TallyStep(o.init, copies, answered, batch, m);
    SameAnswered(o, copies, batch, m.channel, m.ok);
    assert l2.sent == o.log.sent + (answered + [m]);
  }

  // ----- Moments a stop can come at -----

  /** Which channels are due again after a stop: where the group's messages had been dealt with up to `answered`, a
      channel that has accepted the entry is due exactly if the entry was not finished and no refusal had come after the
      acceptance; until then the acceptance is not written back. */
  ghost predicate DueAgainAfterStop(e: Entry, answered: seq<Message>, sent: seq<Message>, p: Pending) {
    forall ch: Channel :: !ch.Direct? && Accepted(sent, e.id, ch) ==>
      (e.id in p && Flag(p[e.id], ch) <==>
       StillDue(e, answered) && Flag(e, ch) && !AcceptedThenRefused(answered, e.id, ch))
  }

  /** At this moment at most one message of the group awaits its answer, and every entry of the group that no put has
      replaced, and every entry put over one, is as the answers dealt with so far demand. */
  ghost predicate AccountedPoint(pt: Point, base: Log, l0: Log, init: seq<Entry>) {
    && l0.sent <= pt.log.sent && |l0.sent| <= pt.log.dealt <= |pt.log.sent| <= pt.log.dealt + 1
    && EntriesSoFar(init, base, |l0.sent|, pt.pending, pt.log)
    && forall j :: 0 <= j < |init| && NoPutStored(base, pt.pending, pt.log, init[j].id) ==>
         DueAgainAfterStop(init[j], AnsweredSince(|l0.sent|, pt.log), SentSince(l0, pt.log), pt.pending)
  }

  lemma PointIsAccounted(pt: Point, base: Log, l0: Log, init: seq<Entry>)
    requires l0.sent <= pt.log.sent && |l0.sent| <= pt.log.dealt <= |pt.log.sent| <= pt.log.dealt + 1
    requires EntriesSoFar(init, base, |l0.sent|, pt.pending, pt.log)
    ensures AccountedPoint(pt, base, l0, init)
  {
    forall j | 0 <= j < |init| && NoPutStored(base, pt.pending, pt.log, init[j].id)
      ensures DueAgainAfterStop(init[j], AnsweredSince(|l0.sent|, pt.log), SentSince(l0, pt.log), pt.pending)
    {
      assert EntrySoFar(init[j], base, |l0.sent|, pt.pending, pt.log);
    }
  }

  ghost predicate PointsAccounted(points: seq<Point>, o: Origin) {
    o.marks <= |points|
    && forall i :: o.marks <= i < |points| ==> AccountedPoint(points[i], o.base, o.log, o.init)
  }

  /** A moment of a flush before its answer has been dealt with: nothing has changed but by others. */
  ghost predicate BeforeAnswer(pt: Point, p: Pending, l: Log, m: Message) {
    (pt.log.sent == l.sent || pt.log.sent == l.sent + [m]) && PutsOnly(p, l, pt.pending, pt.log)
  }

  lemma MessageSent(p: Pending, l: Log, p1: Pending, l1: Log, m: Message)
    requires Interfered(p, l, p1, l1)
    ensures PutsOnly(p, l, p1, AfterSend(l1, m)) && BeforeAnswer(Point(p1, AfterSend(l1, m)), p, l, m)
  {
    forall k
      ensures KeptAt(p, l, p1, AfterSend(l1, m), k)
    {
      assert KeptAt(p, l, p1, l1, k);
      assert forall q: nat :: LastPutOf(l, AfterSend(l1, m), k, q) ==> LastPutOf(l, l1, k, q);
    }
  }

  lemma PointsAfterSend(points: seq<Point>, from: nat, p: Pending, l: Log, p1: Pending, l1: Log, m: Message)
    requires PutsOnly(p, l, p1, l1) && l1.sent == l.sent + [m]
    requires forall i :: from <= i < |points| ==> Interfered(p1, l1, points[i].pending, points[i].log)
    ensures forall i :: from <= i < |points| ==> BeforeAnswer(points[i], p, l, m)
  {
    forall i | from <= i < |points|
      ensures BeforeAnswer(points[i], p, l, m)
    {
      PutsTwice(p, l, p1, l1, points[i].pending, points[i].log);
    }
  }

  /** Every moment of a flush is accounted for by the answers before it, or with it. */
  lemma MorePoints(before: seq<Point>, after: seq<Point>, o: Origin, p: Pending, l: Log, copies: seq<Entry>,
                   m: Message, answered: seq<Message>, p': Pending, l': Log, copies': seq<Entry>)
    requires PointsAccounted(before, o) && before <= after && Idle(l) && Idle(l')
    requires SoFar(o, copies, answered, p, l) && SoFar(o, copies', answered + [m], p', l')
    requires forall i :: |before| <= i < |after| ==> BeforeAnswer(after[i], p, l, m) || after[i] == Point(p', l')
    ensures PointsAccounted(after, o)
  {
    forall i | o.marks <= i < |after|
      ensures AccountedPoint(after[i], o.base, o.log, o.init)
    {
      if i < |before| {
        assert after[i] == before[i];
      } else if BeforeAnswer(after[i], p, l, m) {
        EntriesWait(o.init, o.base, |o.log.sent|, p, l, after[i].pending, after[i].log);
        PointIsAccounted(after[i], o.base, o.log, o.init);
      } else {
        PointIsAccounted(after[i], o.base, o.log, o.init);
      }
    }
  }

  // ----- Requests sent one by one -----

  ghost predicate IsDirect(e: Entry, kind: Kind, kindOf: string -> Kind) {
    e.kind == kind && kindOf(Key(e)) == kind && !IsContent(kind) && e.retries >= 0
  }

  ghost predicate AreDirect(data: seq<Entry>, kind: Kind, kindOf: string -> Kind) {
    DistinctKeys(data) && forall j :: 0 <= j < |data| ==> IsDirect(data[j], kind, kindOf)
  }

  /** Where the handling of direct requests stands; `more` is the message of the next one, once it has gone out. */
  ghost predicate DirectAccount(o: Origin, oks: seq<bool>, more: seq<Message>, p: Pending, l: Log)
    requires |oks| <= |o.init|
  {
    && l.inFlight == {} && l.dealt == |o.log.sent| && l.settled == |o.log.sent| + |oks|
    && l.sent == o.log.sent + DirectMessages(o.init, oks) + more
    && Elsewhere(o.pending, o.log, p, l, KeysOf(o.init)) && NothingNew(o.pending, o.log, p, l)
    && RequestsSoFar(o.init, oks, o.base, |o.log.sent|, p, l) && o.base.puts <= l.puts
  }

  lemma DirectBegin(o: Origin)
    requires Idle(o.log) && GroupUntouched(o.init, o.base, o.pending, o.log)
    ensures DirectAccount(o, [], [], o.pending, o.log)
  {
    StaysElsewhere(o.pending, o.log, KeysOf(o.init));
    assert DirectMessages(o.init, []) == [];
    assert o.log.sent + [] + [] == o.log.sent;
    RequestsStart(o.init, o.base, o.pending, o.log);
  }

  lemma DirectKept(o: Origin, oks: seq<bool>, more: seq<Message>, p: Pending, l: Log, p': Pending, l': Log)
    requires |oks| <= |o.init| && DirectAccount(o, oks, more, p, l) && Interfered(p, l, p', l')
    ensures DirectAccount(o, oks, more, p', l')
  {
    InterferedElsewhere(p, l, p', l', KeysOf(o.init));
    ElsewhereTwice(o.pending, o.log, p, l, p', l', KeysOf(o.init), KeysOf(o.init));
    RequestsGoOn(o.init, oks, o.base, |o.log.sent|, p, l, p', l');
    forall k | k in p'
      ensures k in o.pending || !Undisturbed(o.log, l', k)
    {
      UndisturbedTwice(o.log, l, l', k);
      assert KeptAt(p, l, p', l', k);
    }
  }

  /** The message a request goes out in. */
  function RequestMessage(e: Entry, ok: bool): Message {
    Message(Direct, [Key(e)], [PayloadOf(e, Direct)], ok)
  }

  lemma RequestsTold(data: seq<Entry>, oks: seq<bool>)
    requires |oks| == |data|
    ensures Told(data, DirectMessages(data, oks))
  {
    forall j | 0 <= j < |data|
      ensures TellsOf(data, DirectMessages(data, oks)[j])
    {
      KeyIs(data[j], Key(data[j]));
      PayloadTells(data[j], Direct);
      assert TellsUnder(data[j], Key(data[j]), Direct, PayloadOf(data[j], Direct));
    }
  }

  /** Of the requests nobody has put over since the handler took its copies, each refused one is stored under its own
      key with one more retry, and each accepted one is gone from there. */
  ghost predicate RequestsKept(data: seq<Entry>, oks: seq<bool>, base: Log, p: Pending, l: Log)
    requires |oks| == |data|
  {
    forall j, k :: 0 <= j < |data| && StoredUnder(data[j], k) && Undisturbed(base, l, k) ==>
      KeptUnder(data[j], oks[j], p, k)
  }

  predicate KeptUnder(e: Entry, ok: bool, p: Pending, k: string) {
    if ok then k !in p else k in p && p[k] == e.(retries := e.retries + 1)
  }

  lemma RequestsAreKept(o: Origin, oks: seq<bool>, p: Pending, l: Log)
    requires |oks| == |o.init| && DistinctKeys(o.init) && GroupUntouched(o.init, o.base, o.pending, o.log)
    requires forall j :: 0 <= j < |o.init| ==> !IsContent(o.init[j].kind)
    requires l.sent == o.log.sent + DirectMessages(o.init, oks)
    requires forall j :: 0 <= j < |o.init| ==> Outcome(o.init[j], o.base, p, l)
    ensures RequestsKept(o.init, oks, o.base, p, l) && Told(o.init, SentSince(o.log, l))
  {
    RequestsTold(o.init, oks);
    assert SentSince(o.log, l) == DirectMessages(o.init, oks);
    forall j, k | 0 <= j < |o.init| && StoredUnder(o.init[j], k) && Undisturbed(o.base, l, k)
      ensures KeptUnder(o.init[j], oks[j], p, k)
    {
      KeyIs(o.init[j], k);
      assert Outcome(o.init[j], o.base, p, l) && Untouched(o.init[j], o.base, o.pending, o.log);
      RequestKept(o.init, oks, o.base, o.log, p, l, j);
    }
  }

  /** One request that nobody has put over. */
  lemma RequestKept(data: seq<Entry>, oks: seq<bool>, base: Log, l0: Log, p: Pending, l: Log, j: nat)
    requires |oks| == |data| && DistinctKeys(data) && j < |data| && !IsContent(data[j].kind)
    requires l.sent == l0.sent + DirectMessages(data, oks) && |base.sent| <= |l0.sent|
    requires Unmentioned(SentSince(base, l0), Key(data[j])) && Undisturbed(base, l, Key(data[j]))
    requires Outcome(data[j], base, p, l)
    ensures KeptUnder(data[j], oks[j], p, Key(data[j]))
  {
    var k, before := Key(data[j]), SentSince(base, l0);
    assert SentSince(base, l) == before + DirectMessages(data, oks);
    UnmentionedCounts(before, k);
    CountsConcat(before, DirectMessages(data, oks), k);
    DirectAccepted(data, oks, j);
  }

  /** The next request is sent. */
  lemma DirectSent(o: Origin, oks: seq<bool>, ok: bool, p: Pending, l: Log)
    requires |oks| < |o.init| && DirectAccount(o, oks, [], p, l)
    ensures var m := RequestMessage(o.init[|oks|], ok);
            DirectAccount(o, oks, [m], p, l.(sent := l.sent + [m]))
  {
    var m := RequestMessage(o.init[|oks|], ok);
    var l' := l.(sent := l.sent + [m]);
    StepElsewhere(p, l, p, l', [m], KeysOf(o.init));
    ElsewhereTwice(o.pending, o.log, p, l, p, l', KeysOf(o.init), KeysOf(o.init));
    RequestsSame(o.init, oks, o.base, |o.log.sent|, p, l, l');
    assert forall k :: Undisturbed(o.log, l', k) <==> Undisturbed(o.log, l, k);
  }

  /** It is put back if it was refused. */
  lemma DirectStep(o: Origin, oks: seq<bool>, e: Entry, key: string, ok: bool, p: Pending, l: Log, p': Pending,
                   l': Log, kindOf: string -> Kind)
    requires |oks| < |o.init| && e == o.init[|oks|] && key == Key(e)
    requires DirectAccount(o, oks, [RequestMessage(e, ok)], p, l) && PutsOk(l, kindOf)
    requires AreDirect(o.init, o.kind, kindOf) && key in o.pending
    requires p' == if ok then p else p[key := e.(retries := e.retries + 1)]
    requires l' == l.(settled := l.settled + 1)
    ensures DirectAccount(o, oks + [ok], [], p', l')
  {
    DirectElsewhere(o, p, l, p', l', key);
    DirectMessagesSnoc(o.log.sent, o.init, oks, ok);
    assert p' == if ok then p else p[key := Bump(e)];
    RequestsAnswered(o.init, oks, ok, o.base, |o.log.sent|, p, l, l', kindOf);
    NothingNewStored(o.pending, o.log, p, l, p', l', key);
  }

  /** A change under the key of one of the requests. */
  lemma DirectElsewhere(o: Origin, p: Pending, l: Log, p': Pending, l': Log, key: string)
    requires Elsewhere(o.pending, o.log, p, l, KeysOf(o.init)) && key in KeysOf(o.init)
    requires l' == l.(settled := l'.settled) && forall k :: k != key ==> SameAt(p, p', k)
    ensures Elsewhere(o.pending, o.log, p', l', KeysOf(o.init))
  {
    var keys := KeysOf(o.init);
    assert l'.sent == l.sent + [];
    StepElsewhere(p, l, p', l', [], keys);
    ElsewhereTwice(o.pending, o.log, p, l, p', l', keys, keys);
  }

  lemma NothingNewStored(p0: Pending, l0: Log, p: Pending, l: Log, p': Pending, l': Log, key: string)
    requires NothingNew(p0, l0, p, l) && key in p0 && p'.Keys <= p.Keys + {key} && l'.puts == l.puts
    ensures NothingNew(p0, l0, p', l')
  {
    assert forall k :: Undisturbed(l0, l', k) <==> Undisturbed(l0, l, k);
  }

  lemma DirectMessagesSnoc(before: seq<Message>, data: seq<Entry>, oks: seq<bool>, ok: bool)
    requires |oks| < |data|
    ensures before + DirectMessages(data, oks + [ok]) + [] ==
            before + DirectMessages(data, oks) + [RequestMessage(data[|oks|], ok)]
  {
    assert DirectMessages(data, oks + [ok]) == DirectMessages(data, oks) + [RequestMessage(data[|oks|], ok)];
  }

  /** The accepted requests are deleted. */
  lemma DirectFinish(o: Origin, oks: seq<bool>, p: Pending, l: Log)
    requires |oks| == |o.init| && DirectAccount(o, oks, [], p, l)
    ensures var left, l' := p - KeysAnswered(o.init, oks, true), l.(dealt := |l.sent|);
            Elsewhere(o.pending, o.log, left, l', KeysOf(o.init)) && NothingNew(o.pending, o.log, left, l')
  {
    var left, l' := p - KeysAnswered(o.init, oks, true), l.(dealt := |l.sent|);
    assert l.sent + [] == l'.sent;
    StepElsewhere(p, l, left, l', [], KeysOf(o.init));
    ElsewhereTwice(o.pending, o.log, p, l, left, l', KeysOf(o.init), KeysOf(o.init));
    assert forall k :: Undisturbed(o.log, l', k) <==> Undisturbed(o.log, l, k);
  }

  lemma DirectOutcome(o: Origin, oks: seq<bool>, p: Pending, l: Log, kindOf: string -> Kind, j: nat)
    requires |oks| == |o.init| && DirectAccount(o, oks, [], p, l) && j < |o.init| && PutsOk(l, kindOf) && Idle(o.log)
    requires AreDirect(o.init, o.kind, kindOf) && GroupUntouched(o.init, o.base, o.pending, o.log)
    ensures Outcome(o.init[j], o.base, p - KeysAnswered(o.init, oks, true), l.(dealt := |l.sent|))
  {
    var key := Key(o.init[j]);
    assert Untouched(o.init[j], o.base, o.pending, o.log);
    UnmentionedSince(o.base, o.log, key);
    assert l.sent == o.log.sent + DirectMessages(o.init, oks);
    assert forall i: nat :: |o.base.sent| <= i < |o.log.sent| && About(l.sent, i, key) ==> About(o.log.sent, i, key);
    PutsSinceTwice(o.base, o.log, l);
    assert forall i :: 0 <= i < |l.puts| ==> PutOk(l.puts[i], l, kindOf);
    assert IsDirect(o.init[j], o.kind, kindOf);
    RequestEnds(o.init, oks, o.base, |o.log.sent|, p, l, p - KeysAnswered(o.init, oks, true),
                l.(dealt := |l.sent|), j);
  }

  lemma DirectPutKeepsGood(pending: Pending, log: Log, kindOf: string -> Kind, k: string, e: Entry)
    requires Good(pending, log, kindOf) && k == Key(e) && e.kind == kindOf(k) && !IsContent(e.kind) && e.retries >= 0
    ensures Good(pending[k := e], log, kindOf)
  {
    forall c, ch: Channel | c in log.from && !ch.Direct?
      ensures SafeAt(pending[k := e], log, c, ch)
    {
      assert SafeAt(pending, log, c, ch);
    }
  }

  /** Changes under keys of the other kinds do not concern contents. */
  lemma DirectKeepsSourced(pending: Pending, pending': Pending, log: Log, log': Log, kindOf: string -> Kind)
    requires Sourced(pending, log) && PutsOk(log, kindOf) && log.sent <= log'.sent && log.dealt <= log'.dealt
    requires log' == log.(sent := log'.sent, dealt := log'.dealt, settled := log'.settled)
    requires forall k :: IsContent(kindOf(k)) ==> SameAt(pending, pending', k)
    ensures Sourced(pending', log')
  {
    assert forall i :: 0 <= i < |log.puts| ==> PutOk(log.puts[i], log, kindOf);
    SameSources(pending, log, pending', log');
  }

  /** A request put back, or not, is settled. */
  lemma DirectSettled(p: Pending, l: Log, p': Pending, l': Log, e: Entry, ok: bool, kindOf: string -> Kind)
    requires Good(p, l, kindOf) && Sourced(p, l) && l.settled < |l.sent| && IsDirect(e, e.kind, kindOf)
    requires p' == (if ok then p else p[Key(e) := Bump(e)]) && l' == l.(settled := l.settled + 1)
    ensures Good(p', l', kindOf) && Sourced(p', l')
  {
    if !ok {
      DirectPutKeepsGood(p, l, kindOf, Key(e), Bump(e));
    }
    SettledGood(p', l, kindOf);
    DirectKeepsSourced(p, p', l, l', kindOf);
  }

  lemma HoldKeepsGood(p: Pending, l: Log, kindOf: string -> Kind)
    requires Good(p, l, kindOf)
    ensures Good(p, AfterHold(l), kindOf)
  {
    var l' := AfterHold(l);
    forall c, ch: Channel | c in l'.from && !ch.Direct?
      ensures SafeAt(p, l', c, ch)
    {
      assert SafeAt(p, l, c, ch);
    }
    assert forall i :: 0 <= i < |l.puts| ==> PutOk(l.puts[i], l, kindOf);
  }

  lemma SettledGood(p: Pending, l: Log, kindOf: string -> Kind)
    requires Good(p, l, kindOf) && l.settled < |l.sent|
    ensures Good(p, l.(settled := l.settled + 1), kindOf)
  {
    var l' := l.(settled := l.settled + 1);
    forall c, ch: Channel | c in l'.from && !ch.Direct?
      ensures SafeAt(p, l', c, ch)
    {
      assert SafeAt(p, l, c, ch);
    }
    assert forall i :: 0 <= i < |l.puts| ==> PutOk(l.puts[i], l, kindOf);
  }

  lemma DirectDeleteKeepsGood(pending: Pending, log: Log, kindOf: string -> Kind, kind: Kind, data: seq<Entry>,
                              oks: seq<bool>)
    requires Good(pending, log, kindOf) && log.inFlight == {} && |oks| == |data|
    requires AreDirect(data, kind, kindOf)
    ensures Good(pending - KeysAnswered(data, oks, true), log.(dealt := |log.sent|), kindOf)
  {
    var gone, log' := KeysAnswered(data, oks, true), log.(dealt := |log.sent|);
    assert forall k :: k in gone ==> !IsContent(kindOf(k));
    forall c, ch: Channel | c in log'.from && !ch.Direct?
      ensures SafeAt(pending - gone, log', c, ch)
    {
      assert SafeAt(pending, log, c, ch);
    }
    assert forall i :: 0 <= i < |log.puts| ==> PutOk(log.puts[i], log, kindOf);
  }

  lemma DirectSendKeepsGood(pending: Pending, log: Log, kindOf: string -> Kind, m: Message)
    requires Good(pending, log, kindOf) && forall k :: k in m.ids ==> !IsContent(kindOf(k))
    ensures Good(pending, log.(sent := log.sent + [m]), kindOf)
  {
    FailCountSnoc(log.sent, m);
    MessageKeepsSafe(pending, log, log.(sent := log.sent + [m]), m);
    assert forall i :: 0 <= i < |log.puts| ==> PutOk(log.puts[i], log, kindOf);
  }

  lemma OneWrittenBack(recs: seq<Entry>, batch: seq<nat>, i: nat, start: Pending, before: Pending, after: Pending)
    requires i < |batch| && batch[i] < |recs|
    requires forall i, j :: 0 <= i < j < |recs| ==> recs[i].id != recs[j].id
    requires WrittenBack(recs, batch[..i], start, before)
    requires after == before[recs[batch[i]].id := recs[batch[i]]]
    ensures WrittenBack(recs, batch[..i + 1], start, after)
  {
    var n := batch[i];
    assert batch[..i + 1] == batch[..i] + [n];
    forall j | 0 <= j < |recs| && j in batch[..i + 1]
      ensures recs[j].id in after && after[recs[j].id] == recs[j]
    {
      if j != n {
        assert j in batch[..i] && recs[j].id != recs[n].id;
      }
    }
    forall k | k in after
      ensures k in BatchKeys(recs, batch[..i + 1]) || (k in start && after[k] == start[k])
    {
      if k == recs[n].id {
        assert n in batch[..i + 1];
      } else if k in BatchKeys(recs, batch[..i]) {
        var j: nat :| j < |recs| && j in batch[..i] && recs[j].id == k;
        assert j in batch[..i + 1];
      }
    }
  }
}
