/** The telemetry outbox on values: pending entries, the messages sent, and what must hold between any two steps. */
module OutboxModel {

  datatype Kind = Downloaded | Deleted | Provisioned | FilterUpdated

  /** The two channels a content entry must be accepted by, and the command channel of the other kinds. */
  datatype Channel = Cloud | IoT | Direct

  datatype Property = Property(key: string, value: string)

  datatype Entry = Entry(id: string, kind: Kind, retries: int, time: int, cloud: bool, iot: bool,
                         properties: seq<Property>)

  datatype Content =
    | ContentData(contentId: string, time: int)
    | ContentProperties(contentId: string, time: int, broadcastCommandId: string, sesCid: string,
                        containerLocation: string, size: string)
    | Provision(deviceId: string)
    | CommandStatus(deviceId: string, commandId: string, isFailed: bool, failureReason: string)

  /** One message handed to a channel, for the entries `ids`, and whether the channel accepted it. */
  datatype Message = Message(channel: Channel, ids: seq<string>, payload: seq<Content>, ok: bool)

  predicate IsContent(kind: Kind) {
    kind.Downloaded? || kind.Deleted?
  }

  predicate Flag(e: Entry, ch: Channel) {
    match ch
    case Cloud => e.cloud
    case IoT => e.iot
    case Direct => false
  }

  function Clear(e: Entry, ch: Channel): Entry {
    match ch
    case Cloud => e.(cloud := false)
    case IoT => e.(iot := false)
    case Direct => e
  }

  function Bump(e: Entry): Entry {
    e.(retries := e.retries + 1)
  }

  predicate Unsent(e: Entry) {
    e.cloud || e.iot
  }

  /** The value of the last property with this key, or the empty string. */
  function Lookup(properties: seq<Property>, key: string): string {
    if properties == [] then ""
    else
      var last := properties[|properties| - 1];
      if last.key == key then last.value else Lookup(properties[..|properties| - 1], key)
  }

  /** The bucket key an entry is stored under. */
  function Key(e: Entry): string {
    if e.kind.FilterUpdated? then Lookup(e.properties, "commandId") else e.id
  }

  const DELETED_PREFIX := "DL_"

  /** The content an entry is about: deletions are stored under a prefixed key. */
  function ContentId(e: Entry): string {
    if e.kind.Deleted? && DELETED_PREFIX <= e.id then e.id[|DELETED_PREFIX|..] else e.id
  }

  /** `strconv.ParseBool`, errors counting as false. */
  predicate IsTrue(s: string) {
    s in ["1", "t", "T", "TRUE", "true", "True"]
  }

  function PayloadOf(e: Entry, ch: Channel): Content {
    match ch
    case Cloud => ContentData(ContentId(e), e.time)
    case IoT =>
      ContentProperties(ContentId(e), e.time, Lookup(e.properties, "commandId"), Lookup(e.properties, "sesCid"),
                        if e.kind.Deleted? then "" else Lookup(e.properties, "containerLocation"),
                        if e.kind.Deleted? then "" else Lookup(e.properties, "size"))
    case Direct =>
      if e.kind.FilterUpdated? then
        CommandStatus(e.id, Lookup(e.properties, "commandId"), IsTrue(Lookup(e.properties, "isFailed")),
                      Lookup(e.properties, "failureReason"))
      else Provision(e.id)
  }

  /** The message with index `i` is about this key. */
  predicate About(messages: seq<Message>, i: nat, key: string) {
    i < |messages| && key in messages[i].ids
  }

  /** The message with index `i` was accepted by the channel for this key. */
  predicate AcceptedAt(sent: seq<Message>, i: nat, key: string, ch: Channel) {
    About(sent, i, key) && sent[i].ok && sent[i].channel == ch
  }

  /** From the message with index `from` on, the channel has accepted this key. */
  ghost predicate AcceptedFrom(sent: seq<Message>, from: nat, key: string, ch: Channel) {
    exists i: nat :: from <= i && AcceptedAt(sent, i, key, ch)
  }

  ghost predicate Accepted(sent: seq<Message>, key: string, ch: Channel) {
    AcceptedFrom(sent, 0, key, ch)
  }

  /** How many failed messages carried this key. */
  ghost function FailCount(sent: seq<Message>, key: string): nat {
    if sent == [] then 0
    else
      var last := sent[|sent| - 1];
      FailCount(sent[..|sent| - 1], key) + if !last.ok && key in last.ids then 1 else 0
  }

  lemma AcceptedStays(sent: seq<Message>, sent': seq<Message>, from: nat, from': nat, key: string, ch: Channel)
    requires sent <= sent' && from' <= from && AcceptedFrom(sent, from, key, ch)
    ensures AcceptedFrom(sent', from', key, ch)
  {
    var i: nat :| from <= i && AcceptedAt(sent, i, key, ch);
    assert AcceptedAt(sent', i, key, ch);
  }

  lemma AcceptedSnoc(sent: seq<Message>, m: Message, from: nat, key: string, ch: Channel)
    requires from <= |sent|
    ensures AcceptedFrom(sent + [m], from, key, ch) <==>
            AcceptedFrom(sent, from, key, ch) || (m.ok && m.channel == ch && key in m.ids)
  {
    var more := sent + [m];
    if m.ok && m.channel == ch && key in m.ids {
      assert AcceptedAt(more, |sent|, key, ch);
    } else if i: nat :| from <= i && AcceptedAt(more, i, key, ch) {
      assert AcceptedAt(sent, i, key, ch);
    }
    if AcceptedFrom(sent, from, key, ch) {
      AcceptedStays(sent, more, from, from, key, ch);
    }
  }

  lemma FailCountSnoc(sent: seq<Message>, m: Message)
    ensures forall k :: FailCount(sent + [m], k) == FailCount(sent, k) + if !m.ok && k in m.ids then 1 else 0
  {
    assert (sent + [m])[..|sent|] == sent;
  }

  ghost predicate Unmentioned(messages: seq<Message>, key: string) {
    forall i: nat :: !About(messages, i, key)
  }

  lemma {:induction false} UnmentionedCounts(messages: seq<Message>, key: string)
    requires Unmentioned(messages, key)
    ensures FailCount(messages, key) == 0 && forall ch :: !Accepted(messages, key, ch)
  {
    if messages != [] {
      var init := messages[..|messages| - 1];
      assert forall i: nat :: About(init, i, key) ==> About(messages, i, key);
      assert !About(messages, |messages| - 1, key);
      UnmentionedCounts(init, key);
    }
    assert forall i: nat, ch :: AcceptedAt(messages, i, key, ch) ==> About(messages, i, key);
  }

  lemma {:induction false} CountsConcat(a: seq<Message>, b: seq<Message>, key: string)
    ensures FailCount(a + b, key) == FailCount(a, key) + FailCount(b, key)
    ensures forall ch :: Accepted(a + b, key, ch) <==> Accepted(a, key, ch) || Accepted(b, key, ch)
  {
    if b == [] {
      assert a + b == a;
    } else {
      var init, last := b[..|b| - 1], b[|b| - 1];
      assert b == init + [last] && a + b == (a + init) + [last];
      CountsConcat(a, init, key);
      FailCountSnoc(a + init, last);
      FailCountSnoc(init, last);
      forall ch: Channel
        ensures Accepted(a + b, key, ch) <==> Accepted(a, key, ch) || Accepted(b, key, ch)
      {
        AcceptedSnoc(a + init, last, 0, key, ch);
        AcceptedSnoc(init, last, 0, key, ch);
      }
    }
  }

  /** Where a content entry comes from: which put brought it, how many messages had been sent by then, and the failure
      count its retries are counted from. */
  datatype Source = Source(put: nat, since: nat, base: int)

  /** One put by another goroutine: how many messages had been sent by then, how many dealt with, and how many either
      dealt with or, if refused, at least put back; and how many rounds of the handler had begun. */
  datatype Put = Put(key: string, entry: Entry, sent: nat, dealt: nat, settled: nat, round: nat)

  /** What is remembered about a run: the messages sent, of how many the answer has been dealt with, and how many are
      dealt with or at least put back; where the entry stored under a content key, or the one last deleted there, comes
      from; where the entries came from of which the handler took copies; the keys of a refused batch not yet written
      back; all puts; how many messages had been dealt with at the start of each round; and the puts whose entries the
      handler has deleted or overwritten in dealing with a copy of an earlier one. */
  datatype Log = Log(sent: seq<Message>, dealt: nat, settled: nat, from: map<string, Source>,
                     held: map<string, Source>, inFlight: set<string>, puts: seq<Put>, rounds: seq<nat>, lost: set<nat>)

  type Pending = map<string, Entry>

  ghost predicate SafeAt(pending: Pending, log: Log, key: string, ch: Channel)
    requires key in log.from
  {
    AcceptedFrom(log.sent, log.from[key].since, key, ch) || (key in pending && Flag(pending[key], ch))
  }

  /** No content is lost: each channel has accepted the entry stored or last deleted under a key, since that entry was
      put, or it is stored with that channel still due. */
  ghost predicate Safe(pending: Pending, log: Log) {
    forall k, ch: Channel :: k in log.from && !ch.Direct? ==> SafeAt(pending, log, k, ch)
  }

  /** Entries are put with no retries, contents with both channels due. */
  predicate Fresh(e: Entry) {
    e.retries == 0 && (IsContent(e.kind) ==> e.cloud && e.iot)
  }

  ghost predicate PutOk(put: Put, log: Log, kindOf: string -> Kind) {
    && Fresh(put.entry) && put.key == Key(put.entry) && put.entry.kind == kindOf(put.key)
    && put.dealt <= log.dealt && put.settled <= log.settled && put.sent <= |log.sent|
  }

  ghost predicate PutsOk(log: Log, kindOf: string -> Kind) {
    forall i :: 0 <= i < |log.puts| ==> PutOk(log.puts[i], log, kindOf)
  }

  /** The bucket holds just what this put brought. */
  predicate StoredPut(p: Pending, l: Log, q: nat) {
    q < |l.puts| && l.puts[q].key in p && p[l.puts[q].key] == l.puts[q].entry
  }

  /** The put with index `q` is the last one of this key. */
  ghost predicate LastPut(l: Log, key: string, q: nat) {
    q < |l.puts| && l.puts[q].key == key && forall r :: q < r < |l.puts| ==> l.puts[r].key != key
  }

  /** Keys never collide between kinds, and content entries still have a channel to be sent to. */
  ghost predicate WellKept(pending: Pending, log: Log, kindOf: string -> Kind) {
    && (forall k :: k in pending ==>
          Key(pending[k]) == k && pending[k].kind == kindOf(k) && pending[k].retries >= 0)
    && (forall k :: k in pending && IsContent(kindOf(k)) ==> k in log.from && Unsent(pending[k]))
    && (forall k :: k in log.from ==> IsContent(kindOf(k)) && log.from[k].since <= |log.sent|)
    && log.dealt <= |log.sent| && log.settled <= |log.sent| && PutsOk(log, kindOf)
  }

  /** No message is out whose answer has not been dealt with. */
  predicate Idle(log: Log) {
    log.inFlight == {} && log.dealt == |log.sent| && log.settled == |log.sent|
  }

  function Waiting(log: Log, key: string): nat {
    if key in log.inFlight then 1 else 0
  }

  /** Retry counts are the failed sends since the entry was put. */
  ghost predicate RetriesCount(pending: Pending, log: Log, kindOf: string -> Kind) {
    && log.inFlight <= pending.Keys
    && forall k :: k in pending && IsContent(kindOf(k)) ==>
         k in log.from && pending[k].retries + Waiting(log, k) == FailCount(log.sent, k) - log.from[k].base
  }

  ghost predicate Good(pending: Pending, log: Log, kindOf: string -> Kind) {
    Safe(pending, log) && WellKept(pending, log, kindOf) && RetriesCount(pending, log, kindOf)
  }

  // ----- The steps of other goroutines -----

  /** A put over an entry whose refusal has yet to be counted will have that refusal counted against it. */
  ghost function AfterPut(log: Log, e: Entry): Log {
    var k := Key(e);
    var l := log.(puts := log.puts + [PutNow(log, e)]);
    if IsContent(e.kind) then
      l.(from := log.from[k := Source(|log.puts|, |log.sent|, FailCount(log.sent, k) - Waiting(log, k))])
    else l
  }

  function PutNow(log: Log, e: Entry): Put {
    Put(Key(e), e, |log.sent|, log.dealt, log.settled, |log.rounds|)
  }

  lemma PutKeepsSafe(pending: Pending, log: Log, e: Entry)
    requires Safe(pending, log) && Fresh(e)
    requires IsContent(e.kind) || Key(e) !in log.from
    ensures Safe(pending[Key(e) := e], AfterPut(log, e))
  {
    var p', l' := pending[Key(e) := e], AfterPut(log, e);
    forall k, ch: Channel | k in l'.from && !ch.Direct?
      ensures SafeAt(p', l', k, ch)
    {
      if k != Key(e) {
        assert SafeAt(pending, log, k, ch);
      }
    }
  }

  lemma PutKeepsKept(pending: Pending, log: Log, kindOf: string -> Kind, e: Entry)
    requires WellKept(pending, log, kindOf) && kindOf(Key(e)) == e.kind && Fresh(e)
    ensures WellKept(pending[Key(e) := e], AfterPut(log, e), kindOf)
  {
    PutStaysOk(log, kindOf, e);
  }

  lemma PutStaysOk(log: Log, kindOf: string -> Kind, e: Entry)
    requires PutsOk(log, kindOf) && kindOf(Key(e)) == e.kind && Fresh(e)
    ensures PutsOk(AfterPut(log, e), kindOf)
  {
    var puts := AfterPut(log, e).puts;
    forall i | 0 <= i < |puts|
      ensures PutOk(puts[i], AfterPut(log, e), kindOf)
    {
      assert puts[i] == if i < |log.puts| then log.puts[i] else PutNow(log, e);
      assert i < |log.puts| ==> PutOk(log.puts[i], log, kindOf);
    }
  }

  lemma PutKeepsCount(pending: Pending, log: Log, kindOf: string -> Kind, e: Entry)
    requires RetriesCount(pending, log, kindOf) && kindOf(Key(e)) == e.kind && Fresh(e)
    ensures RetriesCount(pending[Key(e) := e], AfterPut(log, e), kindOf)
  {
  }

  lemma PutKeepsGood(pending: Pending, log: Log, kindOf: string -> Kind, e: Entry)
    requires Good(pending, log, kindOf) && kindOf(Key(e)) == e.kind && Fresh(e)
    ensures Good(pending[Key(e) := e], AfterPut(log, e), kindOf)
  {
    PutKeepsSafe(pending, log, e);
    PutKeepsKept(pending, log, kindOf, e);
    PutKeepsCount(pending, log, kindOf, e);
  }

  predicate SameAt(p: Pending, p': Pending, key: string) {
    (key in p <==> key in p') && (key in p ==> p'[key] == p[key])
  }

  /** Nobody has put this key between the two moments. */
  ghost predicate Undisturbed(l: Log, l': Log, key: string) {
    forall i :: |l.puts| <= i < |l'.puts| ==> l'.puts[i].key != key
  }

  /** The put with index `q` is the last one of this key between the two moments. */
  ghost predicate LastPutOf(l: Log, l': Log, key: string, q: nat) {
    && |l.puts| <= q < |l'.puts| && l'.puts[q].key == key
    && forall r :: q < r < |l'.puts| ==> l'.puts[r].key != key
  }

  /** What puts by others can have done at one key between two moments: nothing, or the last of them is stored. */
  ghost predicate KeptAt(p: Pending, l: Log, p': Pending, l': Log, key: string) {
    && (key in p ==> key in p')
    && (Undisturbed(l, l', key) ==> SameAt(p, p', key))
    && forall q: nat :: LastPutOf(l, l', key, q) ==> StoredPut(p', l', q)
  }

  lemma UndisturbedTwice(l: Log, l1: Log, l2: Log, key: string)
    requires l.puts <= l1.puts <= l2.puts
    ensures Undisturbed(l, l2, key) <==> Undisturbed(l, l1, key) && Undisturbed(l1, l2, key)
  {
    assert forall i :: 0 <= i < |l1.puts| ==> l1.puts[i] == l2.puts[i];
  }

  /** A last put is the last one of the later stretch, or of the earlier one with none of the key after it. */
  lemma LastPutTwice(l: Log, l1: Log, l2: Log, key: string, q: nat)
    requires l.puts <= l1.puts <= l2.puts && LastPutOf(l, l2, key, q)
    ensures |l1.puts| <= q ==> LastPutOf(l1, l2, key, q)
    ensures q < |l1.puts| ==> LastPutOf(l, l1, key, q) && Undisturbed(l1, l2, key) && l2.puts[q] == l1.puts[q]
  {
    assert forall i :: 0 <= i < |l1.puts| ==> l1.puts[i] == l2.puts[i];
  }

  lemma KeptTwice(p: Pending, l: Log, p1: Pending, l1: Log, p2: Pending, l2: Log, key: string)
    requires l.puts <= l1.puts <= l2.puts
    requires KeptAt(p, l, p1, l1, key) && KeptAt(p1, l1, p2, l2, key)
    ensures KeptAt(p, l, p2, l2, key)
  {
    UndisturbedTwice(l, l1, l2, key);
    forall q: nat | LastPutOf(l, l2, key, q)
      ensures StoredPut(p2, l2, q)
    {
      LastPutTwice(l, l1, l2, key, q);
      assert q < |l1.puts| ==> StoredPut(p1, l1, q);
    }
  }

  ghost predicate MadeAt(put: Put, l: Log) {
    put.dealt == l.dealt && put.settled == l.settled && put.round == |l.rounds|
  }

  /** Between the two moments others have put entries, while no answer was dealt with. */
  ghost predicate PutsOnly(p: Pending, l: Log, p': Pending, l': Log) {
    && l'.dealt == l.dealt && l'.settled == l.settled && l'.held == l.held && l'.rounds == l.rounds
    && l.puts <= l'.puts && l.from.Keys <= l'.from.Keys
    && (forall i :: |l.puts| <= i < |l'.puts| ==> MadeAt(l'.puts[i], l))
    && forall k {:trigger KeptAt(p, l, p', l', k)} :: KeptAt(p, l, p', l', k)
  }

  /** What puts by others can have done between two steps. */
  ghost predicate Interfered(p: Pending, l: Log, p': Pending, l': Log) {
    PutsOnly(p, l, p', l') && l'.sent == l.sent && l'.inFlight == l.inFlight
  }

  lemma NotInterfered(p: Pending, l: Log)
    ensures Interfered(p, l, p, l)
  {
  }

  lemma PutsTwice(p: Pending, l: Log, p1: Pending, l1: Log, p2: Pending, l2: Log)
    requires PutsOnly(p, l, p1, l1) && PutsOnly(p1, l1, p2, l2)
    ensures PutsOnly(p, l, p2, l2)
  {
    assert forall i :: 0 <= i < |l1.puts| ==> l1.puts[i] == l2.puts[i];
    forall k
      ensures KeptAt(p, l, p2, l2, k)
    {
      assert KeptAt(p, l, p1, l1, k) && KeptAt(p1, l1, p2, l2, k);
      KeptTwice(p, l, p1, l1, p2, l2, k);
    }
  }

  lemma OnePut(p: Pending, l: Log, e: Entry)
    ensures Interfered(p, l, p[Key(e) := e], AfterPut(l, e))
  {
    var p', l' := p[Key(e) := e], AfterPut(l, e);
    assert l'.puts[|l.puts|] == PutNow(l, e);
    forall k
      ensures KeptAt(p, l, p', l', k)
    {
      assert k == Key(e) ==> !Undisturbed(l, l', k);
    }
  }

  lemma InterferedSnoc(p: Pending, l: Log, p1: Pending, l1: Log, e: Entry)
    requires Interfered(p, l, p1, l1)
    ensures Interfered(p, l, p1[Key(e) := e], AfterPut(l1, e))
  {
    OnePut(p1, l1, e);
    PutsTwice(p, l, p1, l1, p1[Key(e) := e], AfterPut(l1, e));
  }

  // ----- The handler's steps -----

  /** The handler's own copy of a content entry: a flag that is down means acceptance since that entry was put, its
      retries are the refusals since then, and as long as it is due anywhere something is stored under its key. */
  ghost predicate CopyOk(e: Entry, pending: Pending, log: Log, kindOf: string -> Kind) {
    && IsContent(e.kind) && kindOf(e.id) == e.kind && e.retries >= 0
    && e.id in log.from && e.id in log.held && log.held[e.id].since <= |log.sent|
    && (forall ch: Channel :: !ch.Direct? && !Flag(e, ch) ==>
          AcceptedFrom(log.sent, log.held[e.id].since, e.id, ch))
    && e.retries + Waiting(log, e.id) == FailCount(log.sent, e.id) - log.held[e.id].base
    && (Unsent(e) ==> e.id in pending)
  }

  ghost predicate CopiesOk(recs: seq<Entry>, pending: Pending, log: Log, kindOf: string -> Kind) {
    && (forall j :: 0 <= j < |recs| ==> CopyOk(recs[j], pending, log, kindOf))
    && DistinctIds(recs)
  }

  ghost predicate DistinctIds(copies: seq<Entry>) {
    forall i, j :: 0 <= i < j < |copies| ==> copies[i].id != copies[j].id
  }

  /** A copy outlives what others put meanwhile, and messages that are not about it. */
  lemma KeptCopy(e: Entry, p: Pending, l: Log, p': Pending, l': Log, kindOf: string -> Kind)
    requires CopyOk(e, p, l, kindOf) && (e.id in p ==> e.id in p')
    requires l.sent <= l'.sent && Unmentioned(l'.sent[|l.sent|..], e.id)
    requires l'.held == l.held && l'.inFlight == l.inFlight && l.from.Keys <= l'.from.Keys
    ensures CopyOk(e, p', l', kindOf)
  {
    assert e.id in l.from.Keys;
    var more := l'.sent[|l.sent|..];
    assert l'.sent == l.sent + more;
    CountsConcat(l.sent, more, e.id);
    UnmentionedCounts(more, e.id);
    forall ch: Channel | !ch.Direct? && !Flag(e, ch)
      ensures AcceptedFrom(l'.sent, l'.held[e.id].since, e.id, ch)
    {
      AcceptedStays(l.sent, l'.sent, l.held[e.id].since, l.held[e.id].since, e.id, ch);
    }
  }

  lemma InterferenceKeepsCopies(recs: seq<Entry>, p: Pending, l: Log, p': Pending, l': Log, kindOf: string -> Kind)
    requires CopiesOk(recs, p, l, kindOf) && Interfered(p, l, p', l')
    ensures CopiesOk(recs, p', l', kindOf)
  {
    forall j | 0 <= j < |recs|
      ensures CopyOk(recs[j], p', l', kindOf)
    {
      assert CopyOk(recs[j], p, l, kindOf) && KeptAt(p, l, p', l', recs[j].id);
      KeptCopy(recs[j], p, l, p', l', kindOf);
    }
  }

  /** A batch points at distinct copies whose flag for the channel is still up. */
  ghost predicate BatchOk(recs: seq<Entry>, batch: seq<nat>, ch: Channel) {
    && (forall i :: 0 <= i < |batch| ==> batch[i] < |recs| && Flag(recs[batch[i]], ch))
    && (forall i, j :: 0 <= i < j < |batch| ==> batch[i] < batch[j])
  }

  function IdsAt(recs: seq<Entry>, batch: seq<nat>): seq<string>
    requires forall i :: 0 <= i < |batch| ==> batch[i] < |recs|
  {
    seq(|batch|, i requires 0 <= i < |batch| => recs[batch[i]].id)
  }

  function ClearAt(recs: seq<Entry>, batch: seq<nat>, ch: Channel): seq<Entry> {
    seq(|recs|, j requires 0 <= j < |recs| => if j in batch then Clear(recs[j], ch) else recs[j])
  }

  function BumpAt(recs: seq<Entry>, batch: seq<nat>): seq<Entry> {
    seq(|recs|, j requires 0 <= j < |recs| => if j in batch then Bump(recs[j]) else recs[j])
  }

  /** The keys of the batch whose copies have no flag left. */
  ghost function Finished(recs: seq<Entry>, batch: seq<nat>): set<string> {
    set j | 0 <= j < |recs| && j in batch && !Unsent(recs[j]) :: recs[j].id
  }

  /** The keys of the batch. */
  ghost function BatchKeys(recs: seq<Entry>, batch: seq<nat>): set<string> {
    set j | 0 <= j < |recs| && j in batch :: recs[j].id
  }

  ghost function AfterSend(log: Log, m: Message): Log {
    log.(sent := log.sent + [m], inFlight := if m.ok then {} else set k | k in m.ids)
  }

  /** The put is the last one of one of these keys, and the handler holds a copy of an earlier entry. */
  ghost predicate Replaced(log: Log, keys: set<string>, q: nat)
    requires q < |log.puts|
  {
    var k := log.puts[q].key;
    k in keys && k in log.held && log.held[k].put != q && LastPut(log, k, q)
  }

  /** The answer has been dealt with: what lies, or was last deleted, under these keys is what the handler held. */
  ghost function AfterAnswer(log: Log, keys: set<string>): Log {
    log.(from := map k | k in log.from :: if k in keys && k in log.held then log.held[k] else log.from[k],
         inFlight := {}, dealt := |log.sent|, settled := |log.sent|,
         lost := log.lost + set q | 0 <= q < |log.puts| && Replaced(log, keys, q))
  }

  /** The channel has accepted every copy of the batch since the entry it was taken of was put. */
  ghost predicate BatchAccepted(recs: seq<Entry>, batch: seq<nat>, ch: Channel, log: Log) {
    forall j :: 0 <= j < |recs| && j in batch ==>
      recs[j].id in log.held && AcceptedFrom(log.sent, log.held[recs[j].id].since, recs[j].id, ch)
  }

  lemma BatchIds(recs: seq<Entry>, batch: seq<nat>, ch: Channel)
    requires BatchOk(recs, batch, ch)
    ensures forall j :: j in batch ==> j < |recs| && recs[j].id in IdsAt(recs, batch) && Flag(recs[j], ch)
    ensures forall k :: k in IdsAt(recs, batch) ==> exists j :: j in batch && j < |recs| && recs[j].id == k
    ensures BatchKeys(recs, batch) == set k | k in IdsAt(recs, batch)
  {
    var ids := IdsAt(recs, batch);
    forall j | j in batch
      ensures j < |recs| && recs[j].id in ids && Flag(recs[j], ch)
    {
      var i :| 0 <= i < |batch| && batch[i] == j;
      assert ids[i] == recs[j].id && Flag(recs[batch[i]], ch);
    }
    forall k | k in ids
      ensures exists j :: j in batch && j < |recs| && recs[j].id == k
    {
      var i :| 0 <= i < |ids| && ids[i] == k;
      assert batch[i] in batch && recs[batch[i]].id == k;
    }
  }

  // ----- A batch goes out -----

  /** One copy after its batch, or another one, has gone out. */
  lemma SentCopy(recs: seq<Entry>, batch: seq<nat>, pending: Pending, log: Log, kindOf: string -> Kind, m: Message,
                 j: nat)
    requires CopiesOk(recs, pending, log, kindOf) && log.inFlight == {} && j < |recs|
    requires BatchOk(recs, batch, m.channel) && m.ids == IdsAt(recs, batch)
    ensures CopyOk(recs[j], pending, AfterSend(log, m), kindOf)
    ensures recs[j].id in m.ids <==> j in batch
    ensures m.ok && j in batch ==>
              AcceptedFrom(log.sent + [m], log.held[recs[j].id].since, recs[j].id, m.channel)
  {
    var e := recs[j];
    BatchIds(recs, batch, m.channel);
    FailCountSnoc(log.sent, m);
    assert CopyOk(e, pending, log, kindOf);
    var since := log.held[e.id].since;
    AcceptedSnoc(log.sent, m, since, e.id, m.channel);
    forall ch: Channel | !ch.Direct? && !Flag(e, ch)
      ensures AcceptedFrom(log.sent + [m], since, e.id, ch)
    {
      AcceptedStays(log.sent, log.sent + [m], since, since, e.id, ch);
    }
  }

  lemma SendKeepsCopies(recs: seq<Entry>, batch: seq<nat>, pending: Pending, log: Log, kindOf: string -> Kind,
                        m: Message)
    requires CopiesOk(recs, pending, log, kindOf) && log.inFlight == {}
    requires BatchOk(recs, batch, m.channel) && m.ids == IdsAt(recs, batch)
    ensures CopiesOk(recs, pending, AfterSend(log, m), kindOf)
    ensures m.ok ==> BatchAccepted(recs, batch, m.channel, AfterSend(log, m))
  {
    forall j | 0 <= j < |recs|
      ensures CopyOk(recs[j], pending, AfterSend(log, m), kindOf)
      ensures m.ok && j in batch ==>
                AcceptedFrom(log.sent + [m], log.held[recs[j].id].since, recs[j].id, m.channel)
    {
      SentCopy(recs, batch, pending, log, kindOf, m, j);
      assert CopyOk(recs[j], pending, log, kindOf);
    }
  }

  lemma SendKeepsGood(recs: seq<Entry>, batch: seq<nat>, pending: Pending, log: Log, kindOf: string -> Kind, m: Message)
    requires Good(pending, log, kindOf) && CopiesOk(recs, pending, log, kindOf) && log.inFlight == {}
    requires BatchOk(recs, batch, m.channel) && m.ids == IdsAt(recs, batch)
    ensures Good(pending, AfterSend(log, m), kindOf)
  {
    var log' := AfterSend(log, m);
    FailCountSnoc(log.sent, m);
    BatchIds(recs, batch, m.channel);
    forall k | k in m.ids
      ensures k in pending
    {
      var j :| j in batch && j < |recs| && recs[j].id == k;
      assert CopyOk(recs[j], pending, log, kindOf) && Unsent(recs[j]);
    }
    MessageKeepsSafe(pending, log, log', m);
  }

  lemma MessageKeepsSafe(pending: Pending, log: Log, log': Log, m: Message)
    requires Safe(pending, log) && log'.sent == log.sent + [m] && log'.from == log.from
    ensures Safe(pending, log')
  {
    forall k, ch: Channel | k in log'.from && !ch.Direct?
      ensures SafeAt(pending, log', k, ch)
    {
      assert SafeAt(pending, log, k, ch);
      if AcceptedFrom(log.sent, log.from[k].since, k, ch) {
        AcceptedStays(log.sent, log'.sent, log.from[k].since, log.from[k].since, k, ch);
      }
    }
  }

  // ----- An accepted batch -----

  /** A copy of an accepted batch once its flag has gone down, or another copy. */
  lemma ClearedCopy(recs: seq<Entry>, batch: seq<nat>, pending: Pending, log: Log, kindOf: string -> Kind, ch: Channel,
                    j: nat)
    requires CopiesOk(recs, pending, log, kindOf) && BatchAccepted(recs, batch, ch, log) && j < |recs|
    ensures var e := ClearAt(recs, batch, ch)[j]; e.id == recs[j].id && CopyOk(e, pending, log, kindOf)
  {
    assert CopyOk(recs[j], pending, log, kindOf);
  }

  /** A deleted entry has been accepted by both channels since it was put. */
  lemma FinishedAccepted(recs: seq<Entry>, batch: seq<nat>, pending: Pending, log: Log, kindOf: string -> Kind,
                         ch: Channel, k: string)
    requires CopiesOk(recs, pending, log, kindOf) && BatchAccepted(recs, batch, ch, log)
    requires k in Finished(ClearAt(recs, batch, ch), batch)
    ensures k in log.from && k in log.held && log.held[k].since <= |log.sent|
    ensures forall c: Channel :: !c.Direct? ==> AcceptedFrom(log.sent, log.held[k].since, k, c)
  {
    var recs' := ClearAt(recs, batch, ch);
    var j: nat :| j < |recs'| && j in batch && !Unsent(recs'[j]) && recs'[j].id == k;
    ClearedCopy(recs, batch, pending, log, kindOf, ch, j);
    assert !Flag(recs'[j], Cloud) && !Flag(recs'[j], IoT);
  }

  /** After an accepted batch the entries left without a flag are deleted. */
  lemma DeleteKeepsGood(recs: seq<Entry>, batch: seq<nat>, pending: Pending, log: Log, kindOf: string -> Kind,
                        ch: Channel)
    requires Good(pending, log, kindOf) && CopiesOk(recs, pending, log, kindOf) && log.inFlight == {}
    requires BatchAccepted(recs, batch, ch, log)
    ensures var gone := Finished(ClearAt(recs, batch, ch), batch);
            Good(pending - gone, AfterAnswer(log, gone), kindOf)
  {
    var gone := Finished(ClearAt(recs, batch, ch), batch);
    forall k | k in gone
      ensures k in log.from && k in log.held && log.held[k].since <= |log.sent|
      ensures forall c: Channel :: !c.Direct? ==> AcceptedFrom(log.sent, log.held[k].since, k, c)
    {
      FinishedAccepted(recs, batch, pending, log, kindOf, ch, k);
    }
    DeletionKeepsGood(pending, log, kindOf, gone);
  }

  lemma DeletionKeepsGood(pending: Pending, log: Log, kindOf: string -> Kind, gone: set<string>)
    requires Good(pending, log, kindOf) && log.inFlight == {}
    requires forall k :: k in gone ==>
               && k in log.from && k in log.held && log.held[k].since <= |log.sent|
               && forall c: Channel :: !c.Direct? ==> AcceptedFrom(log.sent, log.held[k].since, k, c)
    ensures Good(pending - gone, AfterAnswer(log, gone), kindOf)
  {
    var p', l' := pending - gone, AfterAnswer(log, gone);
    forall k, c: Channel | k in l'.from && !c.Direct?
      ensures SafeAt(p', l', k, c)
    {
      assert SafeAt(pending, log, k, c);
    }
  }

  lemma DeleteKeepsCopies(recs: seq<Entry>, batch: seq<nat>, pending: Pending, log: Log, kindOf: string -> Kind,
                          ch: Channel)
    requires CopiesOk(recs, pending, log, kindOf) && log.inFlight == {} && BatchAccepted(recs, batch, ch, log)
    ensures var recs' := ClearAt(recs, batch, ch);
            var gone := Finished(recs', batch);
            CopiesOk(recs', pending - gone, AfterAnswer(log, gone), kindOf)
  {
    var recs' := ClearAt(recs, batch, ch);
    var gone := Finished(recs', batch);
    forall j | 0 <= j < |recs'|
      ensures CopyOk(recs'[j], pending - gone, AfterAnswer(log, gone), kindOf) && recs'[j].id == recs[j].id
    {
      ClearedCopy(recs, batch, pending, log, kindOf, ch, j);
      if Unsent(recs'[j]) {
        UnsentNotFinished(recs', batch, j);
      }
    }
  }

  lemma UnsentNotFinished(recs: seq<Entry>, batch: seq<nat>, j: nat)
    requires j < |recs| && Unsent(recs[j])
    requires forall i :: 0 <= i < |recs| && i != j ==> recs[i].id != recs[j].id
    ensures recs[j].id !in Finished(recs, batch)
  {
  }

  // ----- A refused batch -----

  /** The batch's copies put back into the bucket. */
  ghost predicate WrittenBack(recs: seq<Entry>, batch: seq<nat>, pending: Pending, pending': Pending) {
    && (forall j :: 0 <= j < |recs| && j in batch ==> recs[j].id in pending' && pending'[recs[j].id] == recs[j])
    && (forall k :: k in pending' ==> k in BatchKeys(recs, batch) || (k in pending && pending'[k] == pending[k]))
    && (forall k :: k in pending ==> k in pending')
  }

  /** What an entry stored under this key needs, when no refused batch is waiting to be written back. */
  ghost predicate FitToStore(e: Entry, log: Log, kindOf: string -> Kind, key: string) {
    && Key(e) == key && e.kind == kindOf(key) && e.retries >= 0
    && (forall c: Channel :: key in log.from && !c.Direct? ==>
          AcceptedFrom(log.sent, log.from[key].since, key, c) || Flag(e, c))
    && (IsContent(e.kind) ==>
          key in log.from && Unsent(e) && e.retries == FailCount(log.sent, key) - log.from[key].base)
  }

  lemma GoodIfFit(pending: Pending, pending': Pending, log: Log, kindOf: string -> Kind, keys: set<string>)
    requires Good(pending, log, kindOf) && pending.Keys <= pending'.Keys
    requires forall k :: k in keys && k in log.held ==> k in pending' && log.held[k].since <= |log.sent|
    requires forall k :: k in pending' ==> FitToStore(pending'[k], AfterAnswer(log, keys), kindOf, k)
    ensures Good(pending', AfterAnswer(log, keys), kindOf)
  {
    var log' := AfterAnswer(log, keys);
    forall k, c: Channel | k in log'.from && !c.Direct?
      ensures SafeAt(pending', log', k, c)
    {
      assert SafeAt(pending, log, k, c);
      if k in pending' {
        assert FitToStore(pending'[k], log', kindOf, k);
      }
    }
    forall k | k in pending'
      ensures Key(pending'[k]) == k && pending'[k].kind == kindOf(k) && pending'[k].retries >= 0
      ensures IsContent(kindOf(k)) ==>
                && k in log'.from && Unsent(pending'[k])
                && pending'[k].retries == FailCount(log'.sent, k) - log'.from[k].base
    {
      assert FitToStore(pending'[k], log', kindOf, k);
    }
  }

  /** A copy whose batch was refused, with one more retry, is fit to be stored. */
  lemma BumpedFits(recs: seq<Entry>, batch: seq<nat>, pending: Pending, log: Log, kindOf: string -> Kind, ch: Channel,
                   j: nat)
    requires CopiesOk(recs, pending, log, kindOf) && BatchOk(recs, batch, ch)
    requires log.inFlight == BatchKeys(recs, batch) && j in batch
    ensures j < |recs|
    ensures FitToStore(Bump(recs[j]), AfterAnswer(log, BatchKeys(recs, batch)), kindOf, recs[j].id)
  {
    BatchIds(recs, batch, ch);
    assert CopyOk(recs[j], pending, log, kindOf);
    assert recs[j].id in BatchKeys(recs, batch);
  }

  /** An entry outside the batch stays fit. */
  lemma StoredFits(pending: Pending, log: Log, kindOf: string -> Kind, keys: set<string>, key: string)
    requires Good(pending, log, kindOf) && key in pending && key !in log.inFlight && key !in keys
    ensures FitToStore(pending[key], AfterAnswer(log, keys), kindOf, key)
  {
    forall c: Channel | key in log.from && !c.Direct?
      ensures AcceptedFrom(log.sent, log.from[key].since, key, c) || Flag(pending[key], c)
    {
      assert SafeAt(pending, log, key, c);
    }
  }

  lemma BumpedKeys(recs: seq<Entry>, batch: seq<nat>)
    ensures BatchKeys(BumpAt(recs, batch), batch) == BatchKeys(recs, batch)
  {
    var recs' := BumpAt(recs, batch);
    assert forall j :: 0 <= j < |recs| ==> recs'[j].id == recs[j].id;
  }

  /** What is stored under a key after a refused batch has been written back. */
  lemma WrittenBackAt(recs: seq<Entry>, batch: seq<nat>, pending: Pending, pending': Pending, k: string)
    requires WrittenBack(BumpAt(recs, batch), batch, pending, pending')
    ensures BatchKeys(BumpAt(recs, batch), batch) == BatchKeys(recs, batch)
    ensures k in pending' && k !in BatchKeys(recs, batch) ==> k in pending && pending'[k] == pending[k]
    ensures k in BatchKeys(recs, batch) ==>
              exists j :: j in batch && j < |recs| && recs[j].id == k && k in pending' && pending'[k] == Bump(recs[j])
  {
    var recs' := BumpAt(recs, batch);
    BumpedKeys(recs, batch);
    if k in BatchKeys(recs, batch) {
      var j: nat :| j < |recs| && j in batch && recs[j].id == k;
      assert recs'[j] == Bump(recs[j]) && recs'[j].id == k;
    }
  }

  /** After a refused batch its copies are written back with one more retry. */
  lemma WriteBackKeepsGood(recs: seq<Entry>, batch: seq<nat>, pending: Pending, pending': Pending, log: Log,
                           kindOf: string -> Kind, ch: Channel)
    requires Good(pending, log, kindOf) && CopiesOk(recs, pending, log, kindOf)
    requires BatchOk(recs, batch, ch) && log.inFlight == BatchKeys(recs, batch)
    requires WrittenBack(BumpAt(recs, batch), batch, pending, pending')
    ensures Good(pending', AfterAnswer(log, BatchKeys(recs, batch)), kindOf)
  {
    var keys := BatchKeys(recs, batch);
    forall k | k in pending'
      ensures FitToStore(pending'[k], AfterAnswer(log, keys), kindOf, k)
    {
      WrittenBackAt(recs, batch, pending, pending', k);
      if k in keys {
        var j :| j in batch && j < |recs| && recs[j].id == k && pending'[k] == Bump(recs[j]);
        BumpedFits(recs, batch, pending, log, kindOf, ch, j);
      } else {
        StoredFits(pending, log, kindOf, keys, k);
      }
    }
    forall k | k in keys
      ensures k in pending' && k in log.held && log.held[k].since <= |log.sent|
    {
      WrittenBackAt(recs, batch, pending, pending', k);
      var j: nat :| j < |recs| && j in batch && recs[j].id == k;
      assert CopyOk(recs[j], pending, log, kindOf);
    }
    GoodIfFit(pending, pending', log, kindOf, keys);
  }

  /** A copy after a refused batch has been written back. */
  lemma BumpedCopy(recs: seq<Entry>, batch: seq<nat>, pending: Pending, pending': Pending, log: Log,
                   kindOf: string -> Kind, j: nat)
    requires CopiesOk(recs, pending, log, kindOf) && log.inFlight == BatchKeys(recs, batch) && j < |recs|
    requires pending.Keys <= pending'.Keys
    ensures CopyOk(BumpAt(recs, batch)[j], pending', AfterAnswer(log, BatchKeys(recs, batch)), kindOf)
  {
    var e := recs[j];
    assert CopyOk(e, pending, log, kindOf);
    assert e.id in log.inFlight <==> j in batch by {
      if i: nat :| i < |recs| && i in batch && recs[i].id == e.id {
        assert i == j;
      }
    }
    assert e.id in pending ==> e.id in pending'.Keys;
  }

  lemma WriteBackKeepsCopies(recs: seq<Entry>, batch: seq<nat>, pending: Pending, pending': Pending, log: Log,
                             kindOf: string -> Kind)
    requires CopiesOk(recs, pending, log, kindOf) && log.inFlight == BatchKeys(recs, batch)
    requires WrittenBack(BumpAt(recs, batch), batch, pending, pending')
    ensures CopiesOk(BumpAt(recs, batch), pending', AfterAnswer(log, BatchKeys(recs, batch)), kindOf)
  {
    var recs' := BumpAt(recs, batch);
    forall j | 0 <= j < |recs'|
      ensures CopyOk(recs'[j], pending', AfterAnswer(log, BatchKeys(recs, batch)), kindOf)
    {
      BumpedCopy(recs, batch, pending, pending', log, kindOf, j);
    }
  }
}
