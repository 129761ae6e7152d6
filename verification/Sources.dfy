/** From which put the entry under each key comes, which puts the handler has lost, and why no other put is. */
module Sources {
  import opened OutboxModel

  /** The put with index `q` is the last one of this content key. */
  ghost predicate LastContent(l: Log, key: string, q: nat) {
    LastPut(l, key, q) && IsContent(l.puts[q].entry.kind)
  }

  ghost predicate SourceOk(log: Log, key: string, s: Source) {
    s.put < |log.puts| && log.puts[s.put].key == key && log.puts[s.put].sent == s.since
  }

  /** A message about the put's key was dealt with after the put, in the round the put was made in. */
  ghost predicate OvertakenBy(log: Log, put: Put, i: nat) {
    && put.dealt <= i < log.dealt && About(log.sent, i, put.key)
    && (put.round < |log.rounds| ==> i < log.rounds[put.round])
  }

  ghost predicate Overtaken(log: Log, put: Put) {
    exists i: nat :: OvertakenBy(log, put, i)
  }

  /** What is stored or was last deleted under a content key comes from its last put, if and only if that put is not
      lost; and lost are only puts overtaken in their own round. */
  ghost predicate FromPuts(log: Log) {
    && (forall k :: k in log.from ==> SourceOk(log, k, log.from[k]))
    && (forall k, q: nat :: LastContent(log, k, q) ==> k in log.from && (log.from[k].put == q <==> q !in log.lost))
    && (forall q :: q in log.lost ==> q < |log.puts| && Overtaken(log, log.puts[q]))
    && (forall q :: 0 <= q < |log.puts| ==> log.puts[q].round <= |log.rounds|)
  }

  /** A lost put is not stored; and one made in this round is, unless it is lost. */
  ghost predicate LostOrStored(pending: Pending, log: Log) {
    forall k, q: nat :: LastContent(log, k, q) ==>
      && (q in log.lost ==> !StoredPut(pending, log, q))
      && (q !in log.lost && log.puts[q].round == |log.rounds| ==> StoredPut(pending, log, q))
  }

  /** The handler's copies come from puts before this round, from the last ones unless those were lost. */
  ghost predicate HeldFromPuts(log: Log) {
    && (forall k :: k in log.held ==>
          SourceOk(log, k, log.held[k]) && log.puts[log.held[k].put].round < |log.rounds|)
    && (forall k, q: nat :: LastContent(log, k, q) && k in log.held && log.puts[q].round < |log.rounds| ==>
          (log.held[k].put == q <==> q !in log.lost))
  }

  ghost predicate Sourced(pending: Pending, log: Log) {
    FromPuts(log) && LostOrStored(pending, log) && HeldFromPuts(log)
  }

  // ----- No put is lost but those overtaken -----

  /** Since the put with index `q` each channel has accepted the key, or it is stored with that channel still due. */
  ghost predicate AccountedSince(pending: Pending, log: Log, key: string, q: nat)
    requires q < |log.puts|
  {
    forall ch: Channel :: !ch.Direct? ==>
      AcceptedFrom(log.sent, log.puts[q].sent, key, ch) || (key in pending && Flag(pending[key], ch))
  }

  /** Of every content ever put: the last put of its key is accounted for; or it was overtaken and lost, and then an
      earlier put of the key is. */
  ghost predicate NothingElseLost(pending: Pending, log: Log) {
    forall k, q: nat :: LastContent(log, k, q) ==>
      if q in log.lost then
        && Overtaken(log, log.puts[q]) && !StoredPut(pending, log, q)
        && exists r: nat :: r < q && log.puts[r].key == k && AccountedSince(pending, log, k, r)
      else AccountedSince(pending, log, k, q)
  }

  lemma OnlyOvertakenLost(pending: Pending, log: Log)
    requires Safe(pending, log) && FromPuts(log) && LostOrStored(pending, log)
    ensures NothingElseLost(pending, log)
  {
    forall k, q: nat | LastContent(log, k, q)
      ensures q !in log.lost ==> AccountedSince(pending, log, k, q)
      ensures q in log.lost ==>
                exists r: nat :: r < q && log.puts[r].key == k && AccountedSince(pending, log, k, r)
    {
      var r := log.from[k].put;
      assert SourceOk(log, k, log.from[k]);
      assert AccountedSince(pending, log, k, r) by {
        forall ch: Channel | !ch.Direct?
          ensures AcceptedFrom(log.sent, log.puts[r].sent, k, ch) || (k in pending && Flag(pending[k], ch))
        {
          assert SafeAt(pending, log, k, ch);
        }
      }
    }
  }

  // ----- What each step keeps -----

  lemma OvertakenStays(log: Log, log': Log, put: Put)
    requires Overtaken(log, put) && log.sent <= log'.sent && log.dealt <= log'.dealt && log.rounds <= log'.rounds
    requires forall n :: |log.rounds| <= n < |log'.rounds| ==> log.dealt <= log'.rounds[n]
    ensures Overtaken(log', put)
  {
    var i: nat :| OvertakenBy(log, put, i);
    assert OvertakenBy(log', put, i);
  }

  lemma LastContentBefore(log: Log, e: Entry, k: string, q: nat)
    requires LastContent(AfterPut(log, e), k, q)
    ensures q < |log.puts| ==> LastContent(log, k, q) && k != Key(e)
    ensures q >= |log.puts| ==> q == |log.puts| && k == Key(e) && IsContent(e.kind)
  {
    var log' := AfterPut(log, e);
    assert log'.puts[|log.puts|] == PutNow(log, e);
    assert forall i :: 0 <= i < |log.puts| ==> log'.puts[i] == log.puts[i];
  }

  lemma SourcesStay(log: Log, log': Log)
    requires log.puts <= log'.puts
    ensures forall k, s :: SourceOk(log, k, s) ==> SourceOk(log', k, s)
  {
    assert forall i :: 0 <= i < |log.puts| ==> log'.puts[i] == log.puts[i];
  }

  lemma PutKeepsFrom(log: Log, kindOf: string -> Kind, e: Entry)
    requires FromPuts(log) && kindOf(Key(e)) == e.kind && PutsOk(log, kindOf)
    requires forall k :: k in log.from ==> IsContent(kindOf(k))
    ensures FromPuts(AfterPut(log, e))
  {
    var log' := AfterPut(log, e);
    assert log'.puts[|log.puts|] == PutNow(log, e);
    SourcesStay(log, log');
    forall k, q: nat | LastContent(log', k, q)
      ensures k in log'.from && (log'.from[k].put == q <==> q !in log'.lost)
    {
      LastContentBefore(log, e, k, q);
    }
    forall q | q in log'.lost
      ensures q < |log'.puts| && Overtaken(log', log'.puts[q])
    {
      OvertakenStays(log, log', log.puts[q]);
    }
  }

  lemma PutKeepsSourced(pending: Pending, log: Log, kindOf: string -> Kind, e: Entry)
    requires Sourced(pending, log) && kindOf(Key(e)) == e.kind && PutsOk(log, kindOf)
    requires forall k :: k in log.from ==> IsContent(kindOf(k))
    ensures Sourced(pending[Key(e) := e], AfterPut(log, e))
  {
    var p', log' := pending[Key(e) := e], AfterPut(log, e);
    PutKeepsFrom(log, kindOf, e);
    SourcesStay(log, log');
    assert log'.puts[|log.puts|] == PutNow(log, e);
    forall k, q: nat | LastContent(log', k, q)
      ensures q in log'.lost ==> !StoredPut(p', log', q)
      ensures q !in log'.lost && log'.puts[q].round == |log'.rounds| ==> StoredPut(p', log', q)
      ensures k in log'.held && log'.puts[q].round < |log'.rounds| ==> (log'.held[k].put == q <==> q !in log'.lost)
    {
      LastContentBefore(log, e, k, q);
    }
  }

  /** Sending a message, dealing with requests, and changes under their keys. */
  lemma SameSources(pending: Pending, log: Log, pending': Pending, log': Log)
    requires Sourced(pending, log) && log.sent <= log'.sent && log.dealt <= log'.dealt
    requires log'.from == log.from && log'.held == log.held && log'.puts == log.puts
    requires log'.rounds == log.rounds && log'.lost == log.lost
    requires forall q :: 0 <= q < |log.puts| && IsContent(log.puts[q].entry.kind) ==>
               SameAt(pending, pending', log.puts[q].key)
    ensures Sourced(pending', log')
  {
    SourcesStay(log, log');
    assert forall k, q: nat :: LastContent(log', k, q) <==> LastContent(log, k, q);
    forall q | q in log'.lost
      ensures q < |log'.puts| && Overtaken(log', log'.puts[q])
    {
      OvertakenStays(log, log', log.puts[q]);
    }
  }

  /** A message about each of these keys has been sent and not been dealt with. */
  ghost predicate Awaited(log: Log, keys: set<string>) {
    log.dealt < |log.sent| && forall k :: k in keys ==> About(log.sent, log.dealt, k)
  }

  lemma ReplacedIsOvertaken(log: Log, kindOf: string -> Kind, keys: set<string>, q: nat)
    requires FromPuts(log) && HeldFromPuts(log) && PutsOk(log, kindOf) && Awaited(log, keys)
    requires q < |log.puts| && Replaced(log, keys, q) && IsContent(log.puts[q].entry.kind) && q !in log.lost
    ensures Overtaken(AfterAnswer(log, keys), log.puts[q])
  {
    assert LastContent(log, log.puts[q].key, q) && PutOk(log.puts[q], log, kindOf);
    assert OvertakenBy(AfterAnswer(log, keys), log.puts[q], log.dealt);
  }

  lemma AnswerKeepsFrom(log: Log, kindOf: string -> Kind, keys: set<string>)
    requires FromPuts(log) && HeldFromPuts(log) && PutsOk(log, kindOf) && Awaited(log, keys)
    requires forall k :: k in keys ==> IsContent(kindOf(k))
    ensures FromPuts(AfterAnswer(log, keys))
  {
    var log' := AfterAnswer(log, keys);
    SourcesStay(log, log');
    forall k, q: nat | LastContent(log', k, q)
      ensures k in log'.from && (log'.from[k].put == q <==> q !in log'.lost)
    {
      assert LastContent(log, k, q);
    }
    forall q | q in log'.lost
      ensures q < |log'.puts| && Overtaken(log', log'.puts[q])
    {
      if q in log.lost {
        OvertakenStays(log, log', log.puts[q]);
      } else {
        assert Replaced(log, keys, q) && PutOk(log.puts[q], log, kindOf);
        ReplacedIsOvertaken(log, kindOf, keys, q);
      }
    }
  }

  /** Dealing with an answer: what it deletes or overwrites under these keys comes from where the copies do. */
  lemma AnswerKeepsSourced(pending: Pending, pending': Pending, log: Log, kindOf: string -> Kind, keys: set<string>)
    requires Sourced(pending, log) && PutsOk(log, kindOf) && Awaited(log, keys)
    requires forall k :: k in keys ==> IsContent(kindOf(k)) && k in log.held
    requires forall k :: if k in keys then k in pending' ==> pending'[k].retries > 0 else SameAt(pending, pending', k)
    ensures Sourced(pending', AfterAnswer(log, keys))
  {
    var log' := AfterAnswer(log, keys);
    AnswerKeepsFrom(log, kindOf, keys);
    SourcesStay(log, log');
    forall k, q: nat | LastContent(log', k, q)
      ensures q in log'.lost ==> !StoredPut(pending', log', q)
      ensures q !in log'.lost && log'.puts[q].round == |log'.rounds| ==> StoredPut(pending', log', q)
      ensures k in log'.held && log'.puts[q].round < |log'.rounds| ==> (log'.held[k].put == q <==> q !in log'.lost)
    {
      assert LastContent(log, k, q) && PutOk(log.puts[q], log, kindOf);
    }
  }

  /** The log when a round begins: the handler takes copies of what is stored. */
  ghost function AfterHold(log: Log): Log {
    log.(held := log.from, rounds := log.rounds + [log.dealt])
  }

  lemma HoldKeepsSourced(pending: Pending, log: Log)
    requires Sourced(pending, log)
    ensures Sourced(pending, AfterHold(log))
  {
    RoundKeepsSourced(pending, log, AfterHold(log), log.from);
  }

  /** A round begins, or the handler is started again without copies. */
  lemma RoundKeepsSourced(pending: Pending, log: Log, log': Log, held: map<string, Source>)
    requires FromPuts(log) && LostOrStored(pending, log) && (held == map[] || held == log.from)
    requires log'.puts == log.puts && log'.lost == log.lost && log'.held == held && log'.sent == log.sent
    requires log'.rounds == log.rounds + [log.dealt] && log.dealt <= log'.dealt
    requires log'.from.Keys == log.from.Keys
    requires forall k ::
               k in log.from ==> log'.from[k].put == log.from[k].put && log'.from[k].since == log.from[k].since
    ensures Sourced(pending, log')
  {
    assert forall k, q: nat :: LastContent(log', k, q) <==> LastContent(log, k, q);
    assert forall k :: k in log'.from <==> k in log.from;
    forall k | k in log'.from
      ensures SourceOk(log', k, log'.from[k])
    {
      assert SourceOk(log, k, log.from[k]);
    }
    forall q | q in log'.lost
      ensures q < |log'.puts| && Overtaken(log', log'.puts[q])
    {
      OvertakenStays(log, log', log.puts[q]);
    }
    forall k | k in log'.held
      ensures SourceOk(log', k, log'.held[k]) && log'.puts[log'.held[k].put].round < |log'.rounds|
    {
      assert SourceOk(log, k, log.from[k]);
    }
  }
}
