/** What messages say and where entries are stored, property by property. */
module Payload {
  import opened OutboxModel

  /** The last property with this key has this value; without such a property the value is empty. */
  ghost predicate Says(properties: seq<Property>, key: string, value: string) {
    if exists i :: 0 <= i < |properties| && properties[i].key == key then
      exists i :: 0 <= i < |properties| && properties[i] == Property(key, value)
                  && forall j :: i < j < |properties| ==> properties[j].key != key
    else value == ""
  }

  /** The bucket key an entry belongs under: a filter update's command id, and any other entry's own id. */
  ghost predicate StoredUnder(e: Entry, key: string) {
    if e.kind.FilterUpdated? then Says(e.properties, "commandId", key) else key == e.id
  }

  /** The content a report is about: a deletion's id has "DL_" in front of it. */
  ghost predicate IsAbout(e: Entry, contentId: string) {
    if e.kind.Deleted? && "DL_" <= e.id then e.id == "DL_" + contentId else e.id == contentId
  }

  /** The content of a message tells what the entry does. */
  ghost predicate Tells(e: Entry, ch: Channel, c: Content) {
    match ch
    case Cloud => c.ContentData? && IsAbout(e, c.contentId) && c.time == e.time
    case IoT =>
      && c.ContentProperties? && IsAbout(e, c.contentId) && c.time == e.time
      && Says(e.properties, "commandId", c.broadcastCommandId) && Says(e.properties, "sesCid", c.sesCid)
      && (if e.kind.Deleted? then c.containerLocation == "" && c.size == ""
          else Says(e.properties, "containerLocation", c.containerLocation) && Says(e.properties, "size", c.size))
    case Direct =>
      if e.kind.FilterUpdated? then
        && c.CommandStatus? && c.deviceId == e.id && Says(e.properties, "commandId", c.commandId)
        && (exists s :: Says(e.properties, "isFailed", s)
                        && (c.isFailed <==> s in {"1", "t", "T", "TRUE", "true", "True"}))
        && Says(e.properties, "failureReason", c.failureReason)
      else c.Provision? && c.deviceId == e.id
  }

  /** The entry with this key is what the content tells of. */
  ghost predicate TellsUnder(e: Entry, key: string, ch: Channel, c: Content) {
    StoredUnder(e, key) && Tells(e, ch, c)
  }

  /** Each of a message's contents tells of an entry of this group, the one whose key the message carries with it. */
  ghost predicate TellsOf(entries: seq<Entry>, m: Message) {
    && |m.ids| == |m.payload|
    && forall n :: 0 <= n < |m.ids| ==> TellsOfOne(entries, m.ids[n], m.channel, m.payload[n])
  }

  ghost predicate TellsOfOne(entries: seq<Entry>, key: string, ch: Channel, c: Content) {
    exists j :: 0 <= j < |entries| && TellsUnder(entries[j], key, ch, c)
  }

  ghost predicate Told(entries: seq<Entry>, messages: seq<Message>) {
    forall i :: 0 <= i < |messages| ==> TellsOf(entries, messages[i])
  }

  /** Each of a message's contents tells of what was stored under the key the message carries with it. */
  ghost predicate ReportsOn(p: Pending, m: Message) {
    && |m.ids| == |m.payload|
    && forall n :: 0 <= n < |m.ids| ==>
         m.ids[n] in p && TellsUnder(p[m.ids[n]], m.ids[n], m.channel, m.payload[n])
  }

  ghost predicate Reported(p: Pending, messages: seq<Message>) {
    forall i :: 0 <= i < |messages| ==> ReportsOn(p, messages[i])
  }

  lemma {:induction false} LookupSays(properties: seq<Property>, key: string)
    ensures Says(properties, key, Lookup(properties, key))
  {
    if properties != [] {
      var n, value := |properties| - 1, Lookup(properties, key);
      var init := properties[..n];
      if properties[n].key == key {
        assert properties[n] == Property(key, value);
      } else {
        LookupSays(init, key);
        if exists i :: 0 <= i < n && init[i].key == key {
          var i :| 0 <= i < n && init[i] == Property(key, value) && forall j :: i < j < n ==> init[j].key != key;
          assert properties[i] == Property(key, value) && forall j :: i < j <= n ==> properties[j].key != key;
        } else {
          assert forall i :: 0 <= i < n ==> properties[i] == init[i];
        }
      }
    }
  }

  lemma SaysLookup(properties: seq<Property>, key: string, value: string)
    ensures Says(properties, key, value) <==> value == Lookup(properties, key)
  {
    LookupSays(properties, key);
  }

  lemma KeyIs(e: Entry, key: string)
    ensures StoredUnder(e, key) <==> key == Key(e)
  {
    SaysLookup(e.properties, "commandId", key);
  }

  lemma PayloadTells(e: Entry, ch: Channel)
    ensures Tells(e, ch, PayloadOf(e, ch))
  {
    LookupSays(e.properties, "commandId");
    assert "DL_" <= e.id ==> e.id == "DL_" + e.id[3..];
    match ch
    case Cloud =>
    case IoT =>
      LookupSays(e.properties, "sesCid");
      LookupSays(e.properties, "containerLocation");
      LookupSays(e.properties, "size");
    case Direct =>
      LookupSays(e.properties, "failureReason");
      LookupSays(e.properties, "isFailed");
  }

  lemma GroupReported(p: Pending, entries: seq<Entry>, messages: seq<Message>)
    requires Told(entries, messages)
    requires forall j :: 0 <= j < |entries| ==> Key(entries[j]) in p && p[Key(entries[j])] == entries[j]
    ensures Reported(p, messages)
  {
    forall m, n | m in messages && 0 <= n < |m.ids|
      ensures |m.ids| == |m.payload|
      ensures m.ids[n] in p && TellsUnder(p[m.ids[n]], m.ids[n], m.channel, m.payload[n])
    {
      assert TellsOf(entries, m) && TellsOfOne(entries, m.ids[n], m.channel, m.payload[n]);
      var j :| 0 <= j < |entries| && TellsUnder(entries[j], m.ids[n], m.channel, m.payload[n]);
      KeyIs(entries[j], m.ids[n]);
    }
    forall i | 0 <= i < |messages|
      ensures ReportsOn(p, messages[i])
    {
      assert TellsOf(entries, messages[i]);
    }
  }

  lemma ReportedConcat(p: Pending, a: seq<Message>, b: seq<Message>)
    requires Reported(p, a) && Reported(p, b)
    ensures Reported(p, a + b)
  {
  }

  lemma ToldSnoc(entries: seq<Entry>, messages: seq<Message>, m: Message)
    requires Told(entries, messages) && TellsOf(entries, m)
    ensures Told(entries, messages + [m])
  {
  }

  /** Two filter updates of one device are stored side by side if their command ids differ. */
  lemma CommandsApart(p: Pending, e: Entry, k: string, e': Entry, k': string)
    requires e.kind.FilterUpdated? && e'.kind.FilterUpdated? && k != k'
    requires Says(e.properties, "commandId", k) && Says(e'.properties, "commandId", k')
    ensures var both := p[Key(e) := e][Key(e') := e'];
            k in both && both[k] == e && k' in both && both[k'] == e'
  {
    KeyIs(e, k);
    KeyIs(e', k');
  }

  // ----- Putting a message together -----

  function Get(m: map<string, string>, key: string): string {
    if key in m then m[key] else ""
  }

  /** The properties by key, later ones replacing earlier ones. */
  method ResponseMap(properties: seq<Property>) returns (m: map<string, string>)
    ensures forall k :: Get(m, k) == Lookup(properties, k)
  {
    m := map[];
    for i := 0 to |properties|
      invariant forall k :: Get(m, k) == Lookup(properties[..i], k)
    {
      assert properties[..i + 1][..i] == properties[..i];
      m := m[properties[i].key := properties[i].value];
    }
    assert properties[..|properties|] == properties;
  }

  /** `strings.TrimPrefix(id, "DL_")`. */
  method TrimDeleted(id: string) returns (contentId: string)
    ensures if "DL_" <= id then id == "DL_" + contentId else contentId == id
  {
    contentId := if "DL_" <= id then id[3..] else id;
  }

  /** One content of a message on one of the two channels. */
  method ContentOf(data: Entry, ch: Channel) returns (content: Content)
    requires !ch.Direct?
    ensures content == PayloadOf(data, ch) && Tells(data, ch, content)
  {
    PayloadTells(data, ch);
    var contentId := data.id;
    if data.kind.Deleted? {
      contentId := TrimDeleted(data.id);
    }
    if ch.Cloud? {
      return ContentData(contentId, data.time);
    }
    var m := ResponseMap(data.properties);
    if data.kind.Deleted? {
      return ContentProperties(contentId, data.time, Get(m, "commandId"), Get(m, "sesCid"), "", "");
    }
    return ContentProperties(contentId, data.time, Get(m, "commandId"), Get(m, "sesCid"), Get(m, "containerLocation"),
                             Get(m, "size"));
  }

  /** What a request says, and the bucket key it is kept under. */
  method RequestOf(data: Entry) returns (key: string, content: Content)
    requires !IsContent(data.kind)
    ensures key == Key(data) && StoredUnder(data, key)
    ensures content == PayloadOf(data, Direct) && Tells(data, Direct, content)
  {
    PayloadTells(data, Direct);
    KeyIs(data, Key(data));
    if data.kind.Provisioned? {
      return data.id, Provision(data.id);
    }
    var m := ResponseMap(data.properties);
    var isFailed := IsTrue(Get(m, "isFailed"));
    return Get(m, "commandId"), CommandStatus(data.id, Get(m, "commandId"), isFailed, Get(m, "failureReason"));
  }
}
