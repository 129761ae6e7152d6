/** A group of entries, and a whole cycle of the handler: what is left when they are done. */
module Rounds {
  import opened OutboxModel
  import opened Payload
  import opened Batching
  import opened Accounts
  import opened Fates
  import opened Sources
  import opened OutboxSteps

  // ----- A group when it is done -----

  /** Of every entry of the group, and of what others have put over it, just what the messages demand is left. */
  ghost predicate GroupDone(data: seq<Entry>, base: Log, p: Pending, l: Log) {
    forall j :: 0 <= j < |data| ==> Outcome(data[j], base, p, l)
  }

  lemma BothLanesDone(o: Origin, p: Pending, l: Log, copies: seq<Entry>, answered: seq<Message>, size: nat)
    requires size > 0 && SoFar(o, copies, answered, p, l) && DistinctIds(copies)
    requires LaneDone(o.init, Cloud, answered, size) && LaneDone(o.init, IoT, answered, size)
    ensures SentInBatches(o.init, answered, size)
    ensures forall j :: 0 <= j < |o.init| ==> SentOnce(o.init[j], answered)
  {
    assert DistinctIds(o.init);
    AllSentOnce(o.init, answered, size);
  }

  lemma ContentsDone(o: Origin, p: Pending, l: Log, copies: seq<Entry>, answered: seq<Message>)
    requires SoFar(o, copies, answered, p, l) && GroupUntouched(o.init, o.base, o.pending, o.log)
    requires Idle(o.log) && Idle(l)
    requires forall j :: 0 <= j < |o.init| ==> SentOnce(o.init[j], answered)
    ensures GroupDone(o.init, o.base, p, l)
  {
    SameKeys(o, copies);
    PutsSinceTwice(o.base, o.log, l);
    assert l.sent[|o.log.sent|..] == answered;
    forall j | 0 <= j < |o.init|
      ensures Outcome(o.init[j], o.base, p, l)
    {
      var e := o.init[j];
      assert Untouched(e, o.base, o.pending, o.log);
      UnmentionedSince(o.base, o.log, e.id);
      assert forall i: nat :: |o.base.sent| <= i < |o.log.sent| && About(l.sent, i, e.id) ==>
          About(o.log.sent, i, e.id);
      EntryEnds(e, o.base, |o.log.sent|, p, l);
    }
  }

  lemma DirectsDone(o: Origin, oks: seq<bool>, p: Pending, l: Log, kindOf: string -> Kind)
    requires |oks| == |o.init| && DirectAccount(o, oks, [], p, l) && PutsOk(l, kindOf) && Idle(o.log)
    requires AreDirect(o.init, o.kind, kindOf) && GroupUntouched(o.init, o.base, o.pending, o.log)
    ensures var left, l' := p - KeysAnswered(o.init, oks, true), l.(dealt := |l.sent|);
            && Elsewhere(o.pending, o.log, left, l', KeysOf(o.init)) && NothingNew(o.pending, o.log, left, l')
            && GroupDone(o.init, o.base, left, l')
  {
    DirectFinish(o, oks, p, l);
    forall j | 0 <= j < |o.init|
      ensures Outcome(o.init[j], o.base, p - KeysAnswered(o.init, oks, true), l.(dealt := |l.sent|))
    {
      DirectOutcome(o, oks, p, l, kindOf, j);
    }
  }

  // ----- Snapshots and kinds -----

  /** The entries are those of the bucket, each once. */
  ghost predicate Lists(pending: Pending, entries: seq<Entry>) {
    && (forall e :: e in entries ==> Key(e) in pending && pending[Key(e)] == e)
    && DistinctKeys(entries)
    && (forall k :: k in pending ==> pending[k] in entries)
  }

  ghost predicate Grouped(entries: seq<Entry>, segregated: map<Kind, seq<Entry>>) {
    && (forall kind :: kind in segregated <==> OfKind(entries, kind) != [])
    && (forall kind :: kind in segregated ==> segregated[kind] == OfKind(entries, kind))
  }

  function OfKind(entries: seq<Entry>, kind: Kind): seq<Entry> {
    if entries == [] then []
    else
      var last := entries[|entries| - 1];
      OfKind(entries[..|entries| - 1], kind) + if last.kind == kind then [last] else []
  }

  lemma OfKindSnoc(init: seq<Entry>, last: Entry, kind: Kind)
    requires forall i :: 0 <= i < |init| ==> Key(init[i]) != Key(last)
    requires forall e :: e in OfKind(init, kind) <==> e in init && e.kind == kind
    requires DistinctKeys(OfKind(init, kind))
    ensures forall e :: e in OfKind(init + [last], kind) <==> e in init + [last] && e.kind == kind
    ensures DistinctKeys(OfKind(init + [last], kind))
  {
    var sub := OfKind(init, kind);
    assert (init + [last])[..|init|] == init;
    forall i | 0 <= i < |sub|
      ensures Key(sub[i]) != Key(last)
    {
      assert sub[i] in sub && sub[i] in init;
    }
    assert OfKind(init + [last], kind) == if last.kind == kind then sub + [last] else sub;
  }

  lemma {:induction false} OfKindFacts(entries: seq<Entry>, kind: Kind)
    requires DistinctKeys(entries)
    ensures forall e :: e in OfKind(entries, kind) <==> e in entries && e.kind == kind
    ensures DistinctKeys(OfKind(entries, kind))
  {
    if entries != [] {
      var init, last := entries[..|entries| - 1], entries[|entries| - 1];
      assert entries == init + [last];
      assert forall i :: 0 <= i < |init| ==> entries[i] == init[i];
      OfKindFacts(init, kind);
      OfKindSnoc(init, last, kind);
    }
  }

  /** The group of one kind may be handled; `base` is the log when the handler took its copies. */
  ghost predicate KindOk(data: seq<Entry>, kind: Kind, p: Pending, l: Log, base: Log, kindOf: string -> Kind) {
    && GroupUntouched(data, base, p, l)
    && if IsContent(kind) then
         CopiesOk(data, p, l, kindOf) && forall j :: 0 <= j < |data| ==> data[j].kind == kind && Unsent(data[j])
       else
         AreDirect(data, kind, kindOf) && forall j :: 0 <= j < |data| ==> Key(data[j]) in p
  }

  lemma SnapshotOk(entries: seq<Entry>, kind: Kind, p: Pending, l: Log, kindOf: string -> Kind)
    requires Good(p, l, kindOf) && Idle(l) && l.held == l.from && Lists(p, entries)
    ensures KindOk(OfKind(entries, kind), kind, p, l, l, kindOf)
  {
    var data := OfKind(entries, kind);
    OfKindFacts(entries, kind);
    assert SentSince(l, l) == [];
    forall j | 0 <= j < |data|
      ensures data[j].kind == kind && kindOf(Key(data[j])) == kind && Key(data[j]) in p && data[j].retries >= 0
      ensures IsContent(kind) ==> CopyOk(data[j], p, l, kindOf) && Unsent(data[j])
      ensures Untouched(data[j], l, p, l)
    {
      assert data[j] in data && data[j] in entries;
      if IsContent(kind) {
        StoredCopy(p, l, kindOf, data[j].id);
      }
    }
  }

  lemma StoredCopy(p: Pending, l: Log, kindOf: string -> Kind, k: string)
    requires Good(p, l, kindOf) && l.inFlight == {} && l.held == l.from && k in p && IsContent(p[k].kind)
    ensures CopyOk(p[k], p, l, kindOf) && Unsent(p[k])
  {
    forall ch: Channel | !ch.Direct? && !Flag(p[k], ch)
      ensures AcceptedFrom(l.sent, l.held[k].since, k, ch)
    {
      assert SafeAt(p, l, k, ch);
    }
  }

  ghost predicate OfThatKind(data: seq<Entry>, kind: Kind, kindOf: string -> Kind) {
    forall j :: 0 <= j < |data| ==> data[j].kind == kindOf(Key(data[j])) == kind
  }

  lemma KindIsThat(data: seq<Entry>, kind: Kind, p: Pending, l: Log, base: Log, kindOf: string -> Kind)
    requires KindOk(data, kind, p, l, base, kindOf)
    ensures OfThatKind(data, kind, kindOf)
  {
    forall j | 0 <= j < |data|
      ensures data[j].kind == kindOf(Key(data[j])) == kind
    {
      assert IsContent(kind) ==> CopyOk(data[j], p, l, kindOf);
    }
  }

  /** What others put, and the handling of other keys, leave a group ready to be handled. */
  lemma KindStaysOk(data: seq<Entry>, kind: Kind, p: Pending, l: Log, p': Pending, l': Log, base: Log,
                    kindOf: string -> Kind, keys: set<string>)
    requires KindOk(data, kind, p, l, base, kindOf) && Elsewhere(p, l, p', l', keys) && Idle(l) && Idle(l')
    requires forall j :: 0 <= j < |data| ==> Key(data[j]) !in keys
    ensures KindOk(data, kind, p', l', base, kindOf)
  {
    KindIsThat(data, kind, p, l, base, kindOf);
    PutsSinceTwice(base, l, l');
    forall j | 0 <= j < |data|
      ensures Untouched(data[j], base, p', l') && (Key(data[j]) in p ==> Key(data[j]) in p')
    {
      assert KeptAt(p, l, p', l', Key(data[j]));
      UntouchedStays(data[j], base, p, l, p', l');
    }
    if IsContent(kind) {
      CopiesKeys(data, p, l, kindOf);
      ElsewhereKeepsCopies(data, p, l, p', l', kindOf, keys);
    }
  }

  // ----- A whole cycle -----

  /** A cycle part way: the kinds of the snapshot that are not in `left` are done. */
  ghost predicate PartWay(segregated: map<Kind, seq<Entry>>, left: set<Kind>, base: Log, p: Pending, l: Log) {
    forall kind :: kind in segregated && kind !in left ==> GroupDone(segregated[kind], base, p, l)
  }

  /** The kinds not handled yet may be, and every group is of its kind. */
  ghost predicate KindsOk(segregated: map<Kind, seq<Entry>>, left: set<Kind>, p: Pending, l: Log, base: Log,
                          kindOf: string -> Kind) {
    && left <= segregated.Keys
    && (forall kind :: kind in segregated ==> OfThatKind(segregated[kind], kind, kindOf))
    && forall kind :: kind in left ==> KindOk(segregated[kind], kind, p, l, base, kindOf)
  }

  /** Keys of different kinds differ. */
  lemma OtherKinds(data: seq<Entry>, kind: Kind, other: seq<Entry>, kind': Kind, kindOf: string -> Kind)
    requires OfThatKind(data, kind, kindOf) && OfThatKind(other, kind', kindOf) && kind != kind'
    ensures forall j :: 0 <= j < |data| ==> Key(data[j]) !in KeysOf(other)
  {
  }

  lemma KindsStayOk(segregated: map<Kind, seq<Entry>>, kinds: set<Kind>, handled: Kind, p: Pending, l: Log,
                    p': Pending, l': Log, base: Log, kindOf: string -> Kind)
    requires KindsOk(segregated, kinds, p, l, base, kindOf) && handled in kinds && Idle(l) && Idle(l')
    requires Elsewhere(p, l, p', l', KeysOf(segregated[handled]))
    ensures KindsOk(segregated, kinds - {handled}, p', l', base, kindOf)
  {
    forall kind | kind in kinds - {handled}
      ensures KindOk(segregated[kind], kind, p', l', base, kindOf)
    {
      OtherKinds(segregated[kind], kind, segregated[handled], handled, kindOf);
      KindStaysOk(segregated[kind], kind, p, l, p', l', base, kindOf, KeysOf(segregated[handled]));
    }
  }

  /** Handling other keys leaves what is done as it is. */
  lemma GroupStaysDone(data: seq<Entry>, base: Log, p: Pending, l: Log, p': Pending, l': Log, keys: set<string>)
    requires GroupDone(data, base, p, l)
    requires Idle(base) && Idle(l) && base.sent <= l.sent && PutsSince(base, l) && Elsewhere(p, l, p', l', keys)
    requires forall j :: 0 <= j < |data| ==> Key(data[j]) !in keys
    ensures GroupDone(data, base, p', l')
  {
    forall j | 0 <= j < |data|
      ensures Outcome(data[j], base, p', l')
    {
      assert KeptAt(p, l, p', l', Key(data[j])) && Unmentioned(SentSince(l, l'), Key(data[j]));
      OutcomeStays(data[j], base, p, l, p', l');
    }
  }

  lemma NextKind(segregated: map<Kind, seq<Entry>>, kinds: set<Kind>, handled: Kind, base: Log, p: Pending, l: Log,
                 p': Pending, l': Log, kindOf: string -> Kind)
    requires KindsOk(segregated, kinds, p, l, base, kindOf) && handled in kinds
    requires PartWay(segregated, kinds, base, p, l)
    requires Idle(l) && Elsewhere(p, l, p', l', KeysOf(segregated[handled]))
    requires GroupDone(segregated[handled], base, p', l')
    ensures PartWay(segregated, kinds - {handled}, base, p', l')
  {
    assert KindOk(segregated[handled], handled, p, l, base, kindOf);
    forall kind | kind in segregated && kind !in kinds - {handled}
      ensures GroupDone(segregated[kind], base, p', l')
    {
      if kind != handled {
        OtherKinds(segregated[kind], kind, segregated[handled], handled, kindOf);
        GroupStaysDone(segregated[kind], base, p, l, p', l', KeysOf(segregated[handled]));
      }
    }
  }

  lemma NothingNewTwice(p0: Pending, l0: Log, p: Pending, l: Log, p': Pending, l': Log)
    requires NothingNew(p0, l0, p, l) && NothingNew(p, l, p', l') && l0.puts <= l.puts <= l'.puts
    ensures NothingNew(p0, l0, p', l')
  {
    forall k | k in p'
      ensures k in p0 || !Undisturbed(l0, l', k)
    {
      UndisturbedTwice(l0, l, l', k);
    }
  }

  lemma InterferedAddsNothing(p: Pending, l: Log, p': Pending, l': Log)
    requires Interfered(p, l, p', l')
    ensures NothingNew(p, l, p', l')
  {
    forall k | k in p'
      ensures k in p || !Undisturbed(l, l', k)
    {
      assert KeptAt(p, l, p', l', k);
    }
  }

  /** Of the contents put during a round, exactly those no longer stored have been lost. */
  ghost predicate LostAreGone(l0: Log, p: Pending, l: Log) {
    forall k, q: nat :: LastContent(l, k, q) && |l0.puts| <= q ==> (q in l.lost <==> !StoredPut(p, l, q))
  }

  lemma RoundLosses(l0: Log, p: Pending, l: Log)
    requires LostOrStored(p, l) && PutsSince(AfterHold(l0), l)
    ensures LostAreGone(l0, p, l)
  {
  }

  /** The groups consist of what was stored at the snapshot. */
  ghost predicate FromSnapshot(segregated: map<Kind, seq<Entry>>, p0: Pending) {
    forall kind, j :: kind in segregated && 0 <= j < |segregated[kind]| ==>
      var e := segregated[kind][j]; Key(e) in p0 && p0[Key(e)] == e
  }

  /** What holds all through a cycle: no key has appeared that nobody put, only the snapshot's keys have been sent
      messages about, and these tell what was stored under them. */
  ghost predicate CycleSoFar(segregated: map<Kind, seq<Entry>>, p0: Pending, l0: Log, p: Pending, l: Log) {
    && FromSnapshot(segregated, p0) && Reported(p0, SentSince(l0, l))
    && NothingNew(p0, l0, p, l) && Elsewhere(p0, l0, p, l, p0.Keys)
  }

  lemma CycleGoesOn(segregated: map<Kind, seq<Entry>>, handled: Kind, p0: Pending, l0: Log, p: Pending, l: Log,
                    p': Pending, l': Log)
    requires CycleSoFar(segregated, p0, l0, p, l) && handled in segregated
    requires NothingNew(p, l, p', l') && Elsewhere(p, l, p', l', KeysOf(segregated[handled]))
    requires Told(segregated[handled], SentSince(l, l'))
    ensures CycleSoFar(segregated, p0, l0, p', l')
  {
    NothingNewTwice(p0, l0, p, l, p', l');
    assert KeysOf(segregated[handled]) <= p0.Keys;
    ElsewhereTwice(p0, l0, p, l, p', l', p0.Keys, KeysOf(segregated[handled]));
    GroupReported(p0, segregated[handled], SentSince(l, l'));
    ReportedConcat(p0, SentSince(l0, l), SentSince(l, l'));
    assert SentSince(l0, l') == SentSince(l0, l) + SentSince(l, l');
  }

  /** The groups are ready when the handler starts on them, though others have put since the snapshot. */
  lemma CycleStarts(entries: seq<Entry>, segregated: map<Kind, seq<Entry>>, p0: Pending, l0: Log, p: Pending, l: Log,
                    kindOf: string -> Kind)
    requires Lists(p0, entries) && Grouped(entries, segregated)
    requires Good(p0, l0, kindOf) && Idle(l0) && l0.held == l0.from && Interfered(p0, l0, p, l)
    ensures KindsOk(segregated, segregated.Keys, p, l, l0, kindOf)
    ensures CycleSoFar(segregated, p0, l0, p, l)
  {
    InterferedElsewhere(p0, l0, p, l, {});
    InterferedElsewhere(p0, l0, p, l, p0.Keys);
    InterferedAddsNothing(p0, l0, p, l);
    GroupKeysStored(entries, segregated, p0);
    forall kind | kind in segregated
      ensures KindOk(segregated[kind], kind, p, l, l0, kindOf) && OfThatKind(segregated[kind], kind, kindOf)
    {
      var data := segregated[kind];
      SnapshotOk(entries, kind, p0, l0, kindOf);
      KindStaysOk(data, kind, p0, l0, p, l, l0, kindOf, {});
      KindIsThat(data, kind, p, l, l0, kindOf);
    }
  }

  /** The groups of a snapshot are about stored keys only. */
  lemma GroupKeysStored(entries: seq<Entry>, segregated: map<Kind, seq<Entry>>, p: Pending)
    requires Lists(p, entries) && Grouped(entries, segregated)
    ensures FromSnapshot(segregated, p)
  {
    forall kind, j | kind in segregated && 0 <= j < |segregated[kind]|
      ensures var e := segregated[kind][j]; Key(e) in p && p[Key(e)] == e
    {
      OfKindFacts(entries, kind);
      assert segregated[kind][j] in OfKind(entries, kind);
    }
  }

  /** After a cycle: no key has appeared that nobody put; of every entry of the snapshot, and of what others have put
      over it, just what the messages demand is left; and where nothing was stored at the snapshot the last put is. */
  ghost predicate CycleDone(p0: Pending, l0: Log, p: Pending, l: Log) {
    && l0.sent <= l.sent && l0.puts <= l.puts && NothingNew(p0, l0, p, l)
    && (forall k :: k in p0 ==> Outcome(p0[k], l0, p, l))
    && forall k :: k !in p0 ==> KeptAt(p0, l0, p, l, k)
  }

  lemma CycleEnds(entries: seq<Entry>, segregated: map<Kind, seq<Entry>>, p0: Pending, l0: Log, p: Pending, l: Log)
    requires Lists(p0, entries) && Grouped(entries, segregated)
    requires PartWay(segregated, {}, l0, p, l) && CycleSoFar(segregated, p0, l0, p, l)
    ensures CycleDone(p0, l0, p, l) && PutsSince(l0, l) && Reported(p0, SentSince(l0, l))
  {
    forall k | k in p0
      ensures Outcome(p0[k], l0, p, l)
    {
      var e := p0[k];
      OfKindFacts(entries, e.kind);
      var data := OfKind(entries, e.kind);
      var j :| 0 <= j < |data| && data[j] == e;
      assert GroupDone(segregated[e.kind], l0, p, l);
    }
  }

  lemma KeysAsStored(p: Pending, l: Log, kindOf: string -> Kind)
    requires Good(p, l, kindOf)
    ensures forall k :: k in p ==> Key(p[k]) == k
  {
  }

  /** Noting where the entries came from when the copies were taken changes no account. */
  lemma HeldAside(p0: Pending, l0: Log, l1: Log, p: Pending, l: Log)
    requires l1 == AfterHold(l0) && CycleDone(p0, l1, p, l)
    ensures CycleDone(p0, l0, p, l)
  {
    assert SentSince(l0, l) == SentSince(l1, l);
    assert forall k :: Undisturbed(l0, l, k) <==> Undisturbed(l1, l, k);
    assert forall k, q: nat :: LastPutOf(l0, l, k, q) <==> LastPutOf(l1, l, k, q);
    forall k
      ensures k in p0 ==> Outcome(p0[k], l0, p, l)
      ensures k !in p0 ==> KeptAt(p0, l0, p, l, k)
    {
      assert k in p0 ==> Outcome(p0[k], l1, p, l);
      assert k !in p0 ==> KeptAt(p0, l1, p, l, k);
    }
  }

  /** The account of a cycle, as from before its copies were taken. */
  lemma CycleOutcome(p0: Pending, l0: Log, l1: Log, p: Pending, l: Log, kindOf: string -> Kind)
    requires l1 == AfterHold(l0) && Good(p0, l0, kindOf) && CycleDone(p0, l1, p, l)
    ensures CycleDone(p0, l0, p, l) && OnlyRefusedLeft(l0, p, l)
  {
    HeldAside(p0, l0, l1, p, l);
    KeysAsStored(p0, l0, kindOf);
    LeftWasRefused(p0, l0, p, l);
  }

  /** Whatever a cycle leaves was put since, or has been refused by the cycle. */
  ghost predicate OnlyRefusedLeft(l0: Log, p: Pending, l: Log) {
    forall k :: k in p && NoPutStored(l0, p, l, k) ==> Refused(SentSince(l0, l), k)
  }

  lemma LeftWasRefused(p0: Pending, l0: Log, p: Pending, l: Log)
    requires CycleDone(p0, l0, p, l) && forall k :: k in p0 ==> Key(p0[k]) == k
    ensures OnlyRefusedLeft(l0, p, l)
  {
    forall k | k in p && NoPutStored(l0, p, l, k)
      ensures Refused(SentSince(l0, l), k)
    {
      if k in p0 {
        assert Outcome(p0[k], l0, p, l);
      } else {
        assert KeptAt(p0, l0, p, l, k);
        StoredIfPut(l0, p0, l0, p, l, k);
      }
    }
  }

  lemma AllGone(l0: Log, p: Pending, l: Log)
    requires OnlyRefusedLeft(l0, p, l) && AllOk(SentSince(l0, l)) && l.puts == l0.puts
    ensures p == map[]
  {
    forall k
      ensures k !in p
    {
      assert NoPutStored(l0, p, l, k);
    }
  }

  lemma LaterMessages(a: Log, b: Log, c: Log)
    requires a.sent <= b.sent <= c.sent
    ensures SentSince(a, c) == SentSince(a, b) + SentSince(b, c)
    ensures AllOk(SentSince(a, c)) <==> AllOk(SentSince(a, b)) && AllOk(SentSince(b, c))
  {
    AllOkParts(SentSince(a, b), SentSince(b, c));
  }
}
