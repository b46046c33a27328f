/**
 * The export formatter: a sequence of loaded events becomes a versioned,
 * JSON-like document (`format_events_as_json` before `json.dumps`). The
 * document is kept as a value; `DecodeDocument` reads it back and is the
 * partner the round-trip lemmas pair the formatter with.
 */
module Serialization {
  import opened Wrappers
  import opened Config
  import opened Calendar
  import opened EntityStore
  import opened Events

  /**
   * A JSON value. `JInstant` stands for an instant rendered with
   * `isoformat()`; an object maps each key to its value.
   */
  datatype Json =
    | JNull
    | JInt(i: int)
    | JNumber(n: Number)
    | JString(s: string)
    | JInstant(t: int)
    | JArray(items: seq<Json>)
    | JObject(fields: map<string, Json>)

  /** The current (and only) version of the document layout. */
  const SchemaVersion: int := 1

  // ---------------------------------------------------------------------------
  // Building the document
  // ---------------------------------------------------------------------------

  /** A nullable text column: the text, or null. */
  function OptString(o: Option<string>): Json {
    match o
    case Some(v) => JString(v)
    case None => JNull
  }

  /** `x.isoformat() if x else None`: a missing instant becomes null rather than an error. */
  function OptInstant(o: Option<int>): Json {
    match o
    case Some(t) => JInstant(t)
    case None => JNull
  }

  /** `event_metric_to_dict`. */
  function MetricToJson(m: Metric): (j: Json)
    ensures j.JObject? && j.fields.Keys == {"id", "event_id", "name", "value", "unit", "created_at"}
  {
    JObject(map[
      "id" := JInt(m.id),
      "event_id" := JInt(m.eventId),
      "name" := JString(m.name),
      "value" := JNumber(m.value),
      "unit" := OptString(m.unit),
      "created_at" := OptInstant(m.createdAt)])
  }

  /** `tag_to_dict`. */
  function TagToJson(t: Tag): (j: Json)
    ensures j.JObject? && j.fields.Keys == {"id", "name", "color", "created_at"}
  {
    JObject(map[
      "id" := JInt(t.id),
      "name" := JString(t.name),
      "color" := OptString(t.color),
      "created_at" := OptInstant(t.createdAt)])
  }

  function MetricsToJson(ms: seq<Metric>): (r: seq<Json>)
    ensures |r| == |ms|
    decreases |ms|
  {
    if |ms| == 0 then [] else [MetricToJson(ms[0])] + MetricsToJson(ms[1..])
  }

  /** `[tag_to_dict(et.tag) for et in e.event_tags if et.tag]`: associations whose tag resolves. */
  function ResolvedTags(links: seq<Link>): (r: seq<Tag>)
    ensures |r| <= |links|
    decreases |links|
  {
    if |links| == 0 then []
    else (if links[0].tag.Some? then [links[0].tag.value] else []) + ResolvedTags(links[1..])
  }

  function TagsToJson(ts: seq<Tag>): (r: seq<Json>)
    ensures |r| == |ts|
    decreases |ts|
  {
    if |ts| == 0 then [] else [TagToJson(ts[0])] + TagsToJson(ts[1..])
  }

  /** `event_to_dict`: the event's columns, its metrics and its resolved tags. */
  function EventToJson(l: Loaded): (j: Json)
    ensures j.JObject? && j.fields.Keys
      == {"id", "timestamp", "type", "title", "raw_text", "notes", "created_at", "metrics", "tags"}
  {
    var e := l.event;
    JObject(map[
      "id" := JInt(e.id),
      "timestamp" := OptInstant(e.timestamp),
      "type" := JString(EventTypeValue(e.kind)),
      "title" := OptString(e.title),
      "raw_text" := OptString(e.rawText),
      "notes" := OptString(e.notes),
      "created_at" := OptInstant(e.createdAt),
      "metrics" := JArray(MetricsToJson(l.metrics)),
      "tags" := JArray(TagsToJson(ResolvedTags(l.links)))])
  }

  function EventsToJson(es: seq<Loaded>): (r: seq<Json>)
    ensures |r| == |es|
    decreases |es|
  {
    if |es| == 0 then [] else [EventToJson(es[0])] + EventsToJson(es[1..])
  }

  /** The value stored under `key` in an object. */
  function Get(j: Json, key: string): Option<Json> {
    if j.JObject? && key in j.fields then Some(j.fields[key]) else None
  }

  /**
   * `format_events_as_json(events, label=label)` with the formatting clock
   * reading `generatedAt`.
   */
  function FormatEvents(es: seq<Loaded>, docLabel: Option<string>, generatedAt: int): (doc: Json)
    ensures Get(doc, "schema_version") == Some(JInt(SchemaVersion))
    ensures Get(doc, "label") == Some(OptString(docLabel))
    ensures Get(doc, "generated_at") == Some(JInstant(generatedAt))
    ensures Get(doc, "events").Some? && Get(doc, "events").value.JArray?
    ensures Get(doc, "event_count") == Some(JInt(|Get(doc, "events").value.items|))
    ensures |Get(doc, "events").value.items| == |es|
  {
    JObject(map[
      "schema_version" := JInt(SchemaVersion),
      "generated_at" := JInstant(generatedAt),
      "label" := OptString(docLabel),
      "event_count" := JInt(|es|),
      "events" := JArray(EventsToJson(es))])
  }

  // ---------------------------------------------------------------------------
  // Reading the document back
  // ---------------------------------------------------------------------------

  function GetInt(j: Json, key: string): Option<int> {
    var v :- Get(j, key);
    if v.JInt? then Some(v.i) else None
  }

  function GetString(j: Json, key: string): Option<string> {
    var v :- Get(j, key);
    if v.JString? then Some(v.s) else None
  }

  function GetNumber(j: Json, key: string): Option<Number> {
    var v :- Get(j, key);
    if v.JNumber? then Some(v.n) else None
  }

  /** A nullable text: `Some(None)` for null, `None` when the value is neither null nor text. */
  function GetOptString(j: Json, key: string): Option<Option<string>> {
    var v :- Get(j, key);
    if v.JNull? then Some(None) else if v.JString? then Some(Some(v.s)) else None
  }

  function GetOptInstant(j: Json, key: string): Option<Option<int>> {
    var v :- Get(j, key);
    if v.JNull? then Some(None) else if v.JInstant? then Some(Some(v.t)) else None
  }

  function GetInstant(j: Json, key: string): Option<int> {
    var v :- Get(j, key);
    if v.JInstant? then Some(v.t) else None
  }

  function GetArray(j: Json, key: string): Option<seq<Json>> {
    var v :- Get(j, key);
    if v.JArray? then Some(v.items) else None
  }

  function DecodeMetric(j: Json): Option<Metric> {
    var id :- GetInt(j, "id");
    var eventId :- GetInt(j, "event_id");
    var name :- GetString(j, "name");
    var value :- GetNumber(j, "value");
    var unit :- GetOptString(j, "unit");
    var createdAt :- GetOptInstant(j, "created_at");
    Some(Metric(id, eventId, name, value, unit, createdAt))
  }

  function DecodeTag(j: Json): Option<Tag> {
    var id :- GetInt(j, "id");
    var name :- GetString(j, "name");
    var color :- GetOptString(j, "color");
    var createdAt :- GetOptInstant(j, "created_at");
    Some(Tag(id, name, color, createdAt))
  }

  function DecodeMetrics(items: seq<Json>): Option<seq<Metric>>
    decreases |items|
  {
    if |items| == 0 then Some([])
    else
      var m :- DecodeMetric(items[0]);
      var rest :- DecodeMetrics(items[1..]);
      Some([m] + rest)
  }

  function DecodeTags(items: seq<Json>): Option<seq<Tag>>
    decreases |items|
  {
    if |items| == 0 then Some([])
    else
      var t :- DecodeTag(items[0]);
      var rest :- DecodeTags(items[1..]);
      Some([t] + rest)
  }

  /** What the document says about one event: its columns, its metrics and its tags. */
  datatype EventEntry = EventEntry(event: Event, metrics: seq<Metric>, tags: seq<Tag>)

  /** The event's own columns, without its metrics and tags. */
  function DecodeEventRecord(j: Json): Option<Event> {
    var id :- GetInt(j, "id");
    var timestamp :- GetOptInstant(j, "timestamp");
    var typeName :- GetString(j, "type");
    var kind :- ParseEventType(typeName);
    var title :- GetOptString(j, "title");
    var rawText :- GetOptString(j, "raw_text");
    var notes :- GetOptString(j, "notes");
    var createdAt :- GetOptInstant(j, "created_at");
    Some(Event(id, timestamp, kind, title, rawText, notes, createdAt))
  }

  function DecodeEvent(j: Json): Option<EventEntry> {
    var event :- DecodeEventRecord(j);
    var metricItems :- GetArray(j, "metrics");
    var metrics :- DecodeMetrics(metricItems);
    var tagItems :- GetArray(j, "tags");
    var tags :- DecodeTags(tagItems);
    Some(EventEntry(event, metrics, tags))
  }

  function DecodeEvents(items: seq<Json>): Option<seq<EventEntry>>
    decreases |items|
  {
    if |items| == 0 then Some([])
    else
      var e :- DecodeEvent(items[0]);
      var rest :- DecodeEvents(items[1..]);
      Some([e] + rest)
  }

  datatype Document = Document(
    schemaVersion: int,
    generatedAt: int,
    docLabel: Option<string>,
    eventCount: int,
    events: seq<EventEntry>)

  function DecodeDocument(j: Json): Option<Document> {
    var version :- GetInt(j, "schema_version");
    var generatedAt :- GetInstant(j, "generated_at");
    var docLabel :- GetOptString(j, "label");
    var count :- GetInt(j, "event_count");
    var items :- GetArray(j, "events");
    var events :- DecodeEvents(items);
    Some(Document(version, generatedAt, docLabel, count, events))
  }

  // ---------------------------------------------------------------------------
  // Round trips
  // ---------------------------------------------------------------------------

  /** What exporting a loaded event is meant to convey. */
  function Entry(l: Loaded): EventEntry {
    EventEntry(l.event, l.metrics, ResolvedTags(l.links))
  }

  function Entries(es: seq<Loaded>): (r: seq<EventEntry>)
    ensures |r| == |es|
    decreases |es|
  {
    if |es| == 0 then [] else [Entry(es[0])] + Entries(es[1..])
  }

  /** Every metric column is copied verbatim. */
  lemma MetricRoundTrip(m: Metric)
    ensures DecodeMetric(MetricToJson(m)) == Some(m)
  {
  }

  lemma TagRoundTrip(t: Tag)
    ensures DecodeTag(TagToJson(t)) == Some(t)
  {
  }

  lemma {:induction false} MetricsRoundTrip(ms: seq<Metric>)
    ensures DecodeMetrics(MetricsToJson(ms)) == Some(ms)
    decreases |ms|
  {
    if |ms| > 0 {
      MetricRoundTrip(ms[0]);
      MetricsRoundTrip(ms[1..]);
      assert [ms[0]] + ms[1..] == ms;
    }
  }

  lemma {:induction false} TagsRoundTrip(ts: seq<Tag>)
    ensures DecodeTags(TagsToJson(ts)) == Some(ts)
    decreases |ts|
  {
    if |ts| > 0 {
      TagRoundTrip(ts[0]);
      TagsRoundTrip(ts[1..]);
      assert [ts[0]] + ts[1..] == ts;
    }
  }

  /** Each field of an encoded event holds the encoding of the matching column. */
  lemma EventFields(l: Loaded)
    ensures var f := EventToJson(l).fields;
      && f["id"] == JInt(l.event.id)
      && f["timestamp"] == OptInstant(l.event.timestamp)
      && f["type"] == JString(EventTypeValue(l.event.kind))
      && f["title"] == OptString(l.event.title)
      && f["raw_text"] == OptString(l.event.rawText)
      && f["notes"] == OptString(l.event.notes)
      && f["created_at"] == OptInstant(l.event.createdAt)
      && f["metrics"] == JArray(MetricsToJson(l.metrics))
      && f["tags"] == JArray(TagsToJson(ResolvedTags(l.links)))
  {
  }

  /** Any object whose fields hold an event's encoded columns decodes to that event. */
  lemma DecodeEventRecordOf(j: Json, e: Event)
    requires j.JObject?
    requires j.fields.Keys >= {"id", "timestamp", "type", "title", "raw_text", "notes", "created_at"}
    requires j.fields["id"] == JInt(e.id)
    requires j.fields["timestamp"] == OptInstant(e.timestamp)
    requires j.fields["type"] == JString(EventTypeValue(e.kind))
    requires j.fields["title"] == OptString(e.title)
    requires j.fields["raw_text"] == OptString(e.rawText)
    requires j.fields["notes"] == OptString(e.notes)
    requires j.fields["created_at"] == OptInstant(e.createdAt)
    ensures DecodeEventRecord(j) == Some(e)
  {
    EventTypeRoundTrip(e.kind);
    assert GetInt(j, "id") == Some(e.id);
    assert GetOptInstant(j, "timestamp") == Some(e.timestamp);
    assert GetString(j, "type") == Some(EventTypeValue(e.kind));
    assert GetOptString(j, "title") == Some(e.title);
    assert GetOptString(j, "raw_text") == Some(e.rawText);
    assert GetOptString(j, "notes") == Some(e.notes);
    assert GetOptInstant(j, "created_at") == Some(e.createdAt);
  }

  /**
   * An exported event reads back as the same event (id, instants, type,
   * title, raw text, notes), the same metrics in the same order, and the
   * tags of its resolving associations.
   */
  lemma EventRoundTrip(l: Loaded)
    ensures DecodeEvent(EventToJson(l)) == Some(Entry(l))
  {
    var j := EventToJson(l);
    EventFields(l);
    DecodeEventRecordOf(j, l.event);
    MetricsRoundTrip(l.metrics);
    TagsRoundTrip(ResolvedTags(l.links));
    assert GetArray(j, "metrics") == Some(MetricsToJson(l.metrics));
    assert GetArray(j, "tags") == Some(TagsToJson(ResolvedTags(l.links)));
  }

  lemma {:induction false} EventsRoundTrip(es: seq<Loaded>)
    ensures DecodeEvents(EventsToJson(es)) == Some(Entries(es))
    decreases |es|
  {
    if |es| > 0 {
      EventRoundTrip(es[0]);
      EventsRoundTrip(es[1..]);
    }
  }

  /** Any object whose fields hold a document's encoded parts decodes to that document. */
  lemma DecodeDocumentOf(j: Json, version: int, generatedAt: int, docLabel: Option<string>,
                         count: int, items: seq<Json>)
    requires j.JObject?
    requires j.fields.Keys >= {"schema_version", "generated_at", "label", "event_count", "events"}
    requires j.fields["schema_version"] == JInt(version)
    requires j.fields["generated_at"] == JInstant(generatedAt)
    requires j.fields["label"] == OptString(docLabel)
    requires j.fields["event_count"] == JInt(count)
    requires j.fields["events"] == JArray(items)
    ensures DecodeEvents(items).Some? ==>
      DecodeDocument(j) == Some(Document(version, generatedAt, docLabel, count, DecodeEvents(items).value))
  {
    assert GetInt(j, "schema_version") == Some(version);
    assert GetInstant(j, "generated_at") == Some(generatedAt);
    assert GetOptString(j, "label") == Some(docLabel);
    assert GetInt(j, "event_count") == Some(count);
    assert GetArray(j, "events") == Some(items);
  }

  /**
   * The whole document reads back as version 1, the formatting instant, the
   * label unchanged, a count equal to the number of events, and one entry
   * per input event in input order.
   */
  lemma DocumentRoundTrip(es: seq<Loaded>, docLabel: Option<string>, generatedAt: int)
    ensures DecodeDocument(FormatEvents(es, docLabel, generatedAt))
         == Some(Document(SchemaVersion, generatedAt, docLabel, |es|, Entries(es)))
  {
    var j := FormatEvents(es, docLabel, generatedAt);
    EventsRoundTrip(es);
    DecodeDocumentOf(j, SchemaVersion, generatedAt, docLabel, |es|, EventsToJson(es));
  }

  /** Apart from `generated_at`, the document depends on the events and the label only. */
  lemma FormatIgnoresClock(es: seq<Loaded>, docLabel: Option<string>, g1: int, g2: int)
    ensures forall key :: key != "generated_at" ==>
      Get(FormatEvents(es, docLabel, g1), key) == Get(FormatEvents(es, docLabel, g2), key)
    ensures FormatEvents(es, docLabel, g1).fields["generated_at" := JInstant(g2)]
         == FormatEvents(es, docLabel, g2).fields
  {
  }

  /** Filtering unresolved associations distributes over concatenation, so relative order is kept. */
  lemma {:induction false} ResolvedTagsAppend(a: seq<Link>, b: seq<Link>)
    ensures ResolvedTags(a + b) == ResolvedTags(a) + ResolvedTags(b)
    decreases |a|
  {
    if |a| > 0 {
      assert (a + b)[1..] == a[1..] + b;
      ResolvedTagsAppend(a[1..], b);
    } else {
      assert a + b == b;
    }
  }

  /** A tag is emitted exactly for the associations whose tag resolves. */
  lemma {:induction false} ResolvedTagsExact(links: seq<Link>, t: Tag)
    ensures t in ResolvedTags(links) <==> exists i :: 0 <= i < |links| && links[i].tag == Some(t)
    decreases |links|
  {
    if |links| > 0 {
      ResolvedTagsExact(links[1..], t);
      if exists i :: 0 <= i < |links| && links[i].tag == Some(t) {
        var i :| 0 <= i < |links| && links[i].tag == Some(t);
        if i > 0 {
          assert links[1..][i - 1].tag == Some(t);
        }
      }
      if t in ResolvedTags(links[1..]) {
        var i :| 0 <= i < |links[1..]| && links[1..][i].tag == Some(t);
        assert links[i + 1].tag == Some(t);
      }
    }
  }

  /** In a valid store every association resolves, so an event exports one tag per association. */
  lemma {:induction false} AllLinksResolve(links: seq<Link>)
    requires forall i :: 0 <= i < |links| ==> links[i].tag.Some?
    ensures |ResolvedTags(links)| == |links|
    ensures forall i :: 0 <= i < |links| ==> ResolvedTags(links)[i] == links[i].tag.value
    decreases |links|
  {
    if |links| > 0 {
      AllLinksResolve(links[1..]);
      assert ResolvedTags(links) == [links[0].tag.value] + ResolvedTags(links[1..]);
      forall i | 1 <= i < |links|
        ensures ResolvedTags(links)[i] == links[i].tag.value
      {
        assert links[1..][i - 1] == links[i];
      }
    }
  }

  lemma {:induction false} EntriesAt(es: seq<Loaded>, i: int)
    requires 0 <= i < |es|
    ensures Entries(es)[i] == Entry(es[i])
    decreases i
  {
    if i > 0 {
      EntriesAt(es[1..], i - 1);
    }
  }

  // ---------------------------------------------------------------------------
  // Today's export
  // ---------------------------------------------------------------------------

  /** `format_events_today_as_json`: today's events under the label "today". */
  function FormatEventsToday(s: Store, today: Date, generatedAt: int): (doc: Json)
    requires Valid(s) && ValidDate(today)
    ensures Get(doc, "label") == Some(JString("today"))
    ensures Get(doc, "generated_at") == Some(JInstant(generatedAt))
  {
    FormatEvents(SelectEventsToday(s, today), Some("today"), generatedAt)
  }

  /** Every entry of today's selection is a stored event of that day, and none repeats. */
  lemma TodayEntriesSound(s: Store, today: Date)
    requires Valid(s) && ValidDate(today)
    ensures var entries := Entries(SelectEventsToday(s, today));
      && (forall i :: 0 <= i < |entries| ==>
            entries[i].event.id in s.events
            && s.events[entries[i].event.id] == entries[i].event
            && IsToday(entries[i].event, today))
      && (forall i, j :: 0 <= i < j < |entries| ==> entries[i].event.id != entries[j].event.id)
  {
    var sel := SelectEventsToday(s, today);
    forall i | 0 <= i < |sel| {
      EntriesAt(sel, i);
    }
  }

  /** Every stored event of the day has an entry in today's selection. */
  lemma TodayEntriesComplete(s: Store, today: Date, id: int)
    requires Valid(s) && ValidDate(today)
    requires id in s.events && IsToday(s.events[id], today)
    ensures exists i ::
      0 <= i < |Entries(SelectEventsToday(s, today))| && Entries(SelectEventsToday(s, today))[i].event == s.events[id]
  {
    var sel := SelectEventsToday(s, today);
    var i :| 0 <= i < |sel| && sel[i] == Load(s, id);
    EntriesAt(sel, i);
  }

  /**
   * Reading today's export back gives a version-1 document labelled "today"
   * whose entries are those of today's selection, and its count matches them.
   */
  lemma TodayExportIsToday(s: Store, today: Date, generatedAt: int)
    requires Valid(s) && ValidDate(today)
    ensures var d := DecodeDocument(FormatEventsToday(s, today, generatedAt));
      && d.Some?
      && d.value.schemaVersion == SchemaVersion
      && d.value.docLabel == Some("today")
      && d.value.generatedAt == generatedAt
      && d.value.eventCount == |d.value.events|
      && d.value.events == Entries(SelectEventsToday(s, today))
  {
    DocumentRoundTrip(SelectEventsToday(s, today), Some("today"), generatedAt);
  }
}
