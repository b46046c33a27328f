/**
 * The relational store of events, their metrics, tags and event-tag
 * associations, as one immutable value: one map per table keyed by primary
 * key, and one id counter per table standing for the database's id
 * allocator. `Valid` collects the schema's constraints (keys, foreign keys,
 * NOT NULL columns, the unique tag name); every write operation either fails
 * with the constraint it would violate and changes nothing, or yields a
 * store that is again `Valid`.
 */
module EntityStore {
  import opened Wrappers
  import opened Config

  /** A metric value. Floats are passed through opaquely; nothing computes with them. */
  datatype Number = Int(i: int) | Float(x: real)

  /** An `event` row. Instants are microseconds in the reference zone. */
  datatype Event = Event(
    id: int,
    timestamp: Option<int>,
    kind: EventType,
    title: Option<string>,
    rawText: Option<string>,
    notes: Option<string>,
    createdAt: Option<int>)

  /** An `event_metric` row; `eventId` is a foreign key to `event`. */
  datatype Metric = Metric(
    id: int,
    eventId: int,
    name: string,
    value: Number,
    unit: Option<string>,
    createdAt: Option<int>)

  /** A `tag` row; `name` is unique. */
  datatype Tag = Tag(id: int, name: string, color: Option<string>, createdAt: Option<int>)

  /** An `event_tag` row; its primary key is the pair `(eventId, tagId)`. */
  datatype EventTag = EventTag(eventId: int, tagId: int, createdAt: Option<int>)

  datatype Store = Store(
    events: map<int, Event>,
    metrics: map<int, Metric>,
    tags: map<int, Tag>,
    eventTags: map<(int, int), EventTag>,
    nextEventId: int,
    nextMetricId: int,
    nextTagId: int)

  /** The constraint a rejected write would have violated. */
  datatype StoreError =
    | NotNullViolation(column: string)
    | UniqueViolation(column: string)
    | PrimaryKeyViolation(table: string)
    | ForeignKeyViolation(column: string)

  // ---------------------------------------------------------------------------
  // Schema constraints
  // ---------------------------------------------------------------------------

  /** Event rows: key matches id, ids come from the allocator, timestamp and created_at are set. */
  predicate EventsOk(s: Store) {
    forall id :: id in s.events ==>
      && s.events[id].id == id
      && 1 <= id < s.nextEventId
      && s.events[id].timestamp.Some?
      && s.events[id].createdAt.Some?
  }

  /** Metric rows: key matches id, and the owning event exists (never null, never dangling). */
  predicate MetricsOk(s: Store) {
    forall id :: id in s.metrics ==>
      && s.metrics[id].id == id
      && 1 <= id < s.nextMetricId
      && s.metrics[id].eventId in s.events
      && s.metrics[id].createdAt.Some?
  }

  predicate TagsOk(s: Store) {
    forall id :: id in s.tags ==>
      && s.tags[id].id == id
      && 1 <= id < s.nextTagId
      && s.tags[id].createdAt.Some?
  }

  predicate UniqueTagNames(s: Store) {
    forall a, b :: a in s.tags && b in s.tags && s.tags[a].name == s.tags[b].name ==> a == b
  }

  /** Association rows: keyed by their (event, tag) pair, both ends existing. */
  predicate EventTagsOk(s: Store) {
    forall p :: p in s.eventTags ==>
      && s.eventTags[p].eventId == p.0
      && s.eventTags[p].tagId == p.1
      && p.0 in s.events
      && p.1 in s.tags
      && s.eventTags[p].createdAt.Some?
  }

  predicate Valid(s: Store) {
    && s.nextEventId >= 1 && s.nextMetricId >= 1 && s.nextTagId >= 1
    && EventsOk(s) && MetricsOk(s) && TagsOk(s) && UniqueTagNames(s) && EventTagsOk(s)
  }

  /** A freshly created database. */
  function EmptyStore(): (s: Store)
    ensures Valid(s)
    ensures s.events == map[] && s.metrics == map[] && s.tags == map[] && s.eventTags == map[]
  {
    Store(map[], map[], map[], map[], 1, 1, 1)
  }

  // ---------------------------------------------------------------------------
  // Committing a new event together with its metrics (one unit of work)
  // ---------------------------------------------------------------------------

  /** The fields of an `Event` a logger sets; the store assigns id and instants. */
  datatype EventDraft = EventDraft(
    kind: EventType,
    title: Option<string>,
    rawText: Option<string>,
    notes: Option<string>)

  /** A metric appended to a pending event; the value may be missing (a NOT NULL violation). */
  datatype MetricDraft = MetricDraft(name: string, value: Option<Number>, unit: Option<string>)

  predicate AllValuesPresent(ms: seq<MetricDraft>) {
    forall i :: 0 <= i < |ms| ==> ms[i].value.Some?
  }

  /**
   * The `value` column is a floating-point column: an integer count comes
   * back from the store as the float of equal value.
   */
  function StoredValue(n: Number): (r: Number)
    ensures r.Float?
    ensures n.Float? ==> r == n
    ensures n.Int? ==> r.x == n.i as real
  {
    match n
    case Int(i) => Float(i as real)
    case Float(x) => Float(x)
  }

  /** The row a pending metric becomes when committed with id `id` under event `eventId`. */
  function MetricRow(d: MetricDraft, id: int, eventId: int, now: int): Metric
    requires d.value.Some?
  {
    Metric(id, eventId, d.name, StoredValue(d.value.value), d.unit, Some(now))
  }

  /** The event row a draft becomes when committed. */
  function EventRow(d: EventDraft, id: int, now: int): Event {
    Event(id, Some(now), d.kind, d.title, d.rawText, d.notes, Some(now))
  }

  /** The metric rows a list of drafts becomes, numbered from `base`, in order. */
  function MetricRows(ms: seq<MetricDraft>, base: int, eventId: int, now: int): (rows: seq<Metric>)
    requires AllValuesPresent(ms)
    ensures |rows| == |ms|
  {
    seq(|ms|, i requires 0 <= i < |ms| => MetricRow(ms[i], base + i, eventId, now))
  }

  lemma MetricRowsAt(ms: seq<MetricDraft>, base: int, eventId: int, now: int, i: int)
    requires AllValuesPresent(ms) && 0 <= i < |ms|
    ensures MetricRows(ms, base, eventId, now)[i] == MetricRow(ms[i], base + i, eventId, now)
  {
  }

  /**
   * Inserts the event and all its metrics in one commit at instant `now`.
   * A missing metric value violates `event_metric.value NOT NULL`; the
   * whole unit of work is then rolled back and nothing is written.
   */
  function Commit(s: Store, d: EventDraft, ms: seq<MetricDraft>, now: int): (r: Result<(Store, Event), StoreError>)
    requires Valid(s)
    ensures r.Failure? <==> !AllValuesPresent(ms)
    ensures r.Failure? ==> r.error == NotNullViolation("event_metric.value")
    ensures r.Success? ==> Committed(s, r.value.0, r.value.1, d, ms, now)
  {
    if !AllValuesPresent(ms) then Failure(NotNullViolation("event_metric.value"))
    else
      var eid := s.nextEventId;
      var base := s.nextMetricId;
      var rows := MetricRows(ms, base, eid, now);
      var e := EventRow(d, eid, now);
      var s' := s.(
        events := s.events[eid := e],
        metrics := s.metrics + NewRows(rows),
        nextEventId := eid + 1,
        nextMetricId := base + |ms|);
      CommitKeepsValid(s, s', e, rows, base);
      Success((s', e))
  }

  /**
   * `s'` is `s` plus exactly the event `e` built from `d` and exactly the
   * metrics built from `ms` (in order, owned by `e`); every row `s` already
   * held is unchanged and the store is again valid.
   */
  predicate Committed(s: Store, s': Store, e: Event, d: EventDraft, ms: seq<MetricDraft>, now: int)
    requires AllValuesPresent(ms)
  {
    && Valid(s')
    && e.id !in s.events
    && e == EventRow(d, e.id, now)
    && s'.events == s.events[e.id := e]
    && s'.tags == s.tags
    && s'.eventTags == s.eventTags
    && (forall k :: k in s.metrics ==> k in s'.metrics && s'.metrics[k] == s.metrics[k])
    && (forall k :: k in s'.metrics && k !in s.metrics ==> s'.metrics[k].eventId == e.id)
    && MetricsOf(s', e.id) == MetricRows(ms, s.nextMetricId, e.id, now)
  }

  /** Rows keyed by their ids. */
  function NewRows(rows: seq<Metric>): map<int, Metric>
    requires forall i, j :: 0 <= i < j < |rows| ==> rows[i].id != rows[j].id
  {
    map i | 0 <= i < |rows| :: rows[i].id := rows[i]
  }

  lemma NewRowsShape(rows: seq<Metric>, base: int)
    requires forall i :: 0 <= i < |rows| ==> rows[i].id == base + i
    ensures forall k :: k in NewRows(rows) <==> base <= k < base + |rows|
    ensures forall k :: k in NewRows(rows) ==> NewRows(rows)[k] == rows[k - base]
  {
    forall k | base <= k < base + |rows|
      ensures k in NewRows(rows)
    {
      assert rows[k - base].id == k;
    }
  }

  lemma CommitKeepsValid(s: Store, s': Store, e: Event, rows: seq<Metric>, base: int)
    requires Valid(s)
    requires e.id == s.nextEventId && base == s.nextMetricId
    requires e.timestamp.Some? && e.createdAt.Some?
    requires forall i :: 0 <= i < |rows| ==>
      rows[i].id == base + i && rows[i].eventId == e.id && rows[i].createdAt.Some?
    requires s'.events == s.events[e.id := e] && s'.metrics == s.metrics + NewRows(rows)
    requires s'.tags == s.tags && s'.eventTags == s.eventTags
    requires s'.nextEventId == e.id + 1 && s'.nextMetricId == base + |rows| && s'.nextTagId == s.nextTagId
    ensures Valid(s')
    ensures e.id !in s.events
    ensures forall k :: k in s.metrics ==> k in s'.metrics && s'.metrics[k] == s.metrics[k]
    ensures forall k :: k in s'.metrics && k !in s.metrics ==> s'.metrics[k].eventId == e.id
    ensures MetricsOf(s', e.id) == rows
  {
    CommitMetricsOk(s, s', e, rows, base);
    assert EventsOk(s');
    assert EventTagsOk(s');
    assert forall k :: k in s.metrics ==> k < base && s.metrics[k].eventId != e.id;
    MergedRows(s.metrics, s'.metrics, e.id, rows, base);
    CommitLoadsRows(s', e.id, rows, base);
  }

  /** Rows appended after every older row of other events load back as exactly those rows. */
  lemma CommitLoadsRows(s': Store, eid: int, rows: seq<Metric>, base: int)
    requires 0 <= base && s'.nextMetricId == base + |rows|
    requires forall i :: 0 <= i < |rows| ==> rows[i].id == base + i && rows[i].eventId == eid
    requires forall k :: base <= k < base + |rows| ==> k in s'.metrics && s'.metrics[k] == rows[k - base]
    requires forall k :: k < base ==> !(k in s'.metrics && s'.metrics[k].eventId == eid)
    ensures MetricsOf(s', eid) == rows
  {
    FreshEventOwnsAppended(s', eid, rows, base, base + |rows|);
    assert rows[..|rows|] == rows;
  }

  lemma CommitMetricsOk(s: Store, s': Store, e: Event, rows: seq<Metric>, base: int)
    requires Valid(s)
    requires e.id == s.nextEventId && base == s.nextMetricId
    requires forall i :: 0 <= i < |rows| ==>
      rows[i].id == base + i && rows[i].eventId == e.id && rows[i].createdAt.Some?
    requires s'.events == s.events[e.id := e] && s'.metrics == s.metrics + NewRows(rows)
    requires s'.nextMetricId == base + |rows|
    ensures MetricsOk(s')
    ensures forall k :: k in s'.metrics && k !in s.metrics ==> s'.metrics[k].eventId == e.id
  {
    NewRowsShape(rows, base);
    forall k | k in s'.metrics
      ensures s'.metrics[k].id == k && 1 <= k < s'.nextMetricId
      ensures s'.metrics[k].eventId in s'.events && s'.metrics[k].createdAt.Some?
      ensures k !in s.metrics ==> s'.metrics[k].eventId == e.id
    {
      if k in NewRows(rows) {
        assert s'.metrics[k] == rows[k - base];
      } else {
        assert s'.metrics[k] == s.metrics[k];
      }
    }
  }

  lemma PrefixStep<T>(s: seq<T>, i: int)
    requires 0 <= i < |s|
    ensures s[..i + 1] == s[..i] + [s[i]]
  {
  }

  /** The row under `k` in the merged metrics map, as far as event `eid` is concerned. */
  lemma MergedRowAt(old_: map<int, Metric>, m: map<int, Metric>, eid: int, rows: seq<Metric>, base: int, k: int)
    requires forall k :: k in old_ ==> k < base && old_[k].eventId != eid
    requires forall i :: 0 <= i < |rows| ==> rows[i].id == base + i && rows[i].eventId == eid
    requires m == old_ + NewRows(rows)
    ensures base <= k < base + |rows| ==> k in m && m[k] == rows[k - base]
    ensures k < base ==> !(k in m && m[k].eventId == eid)
  {
    if base <= k < base + |rows| {
      assert rows[k - base].id == k;
      assert k in NewRows(rows);
    } else if k < base {
      assert forall i :: 0 <= i < |rows| ==> rows[i].id != k;
      assert k !in NewRows(rows);
    }
  }

  /** Where the merged metrics map holds the appended rows, and where it holds no row of event `eid`. */
  lemma MergedRows(old_: map<int, Metric>, m: map<int, Metric>, eid: int, rows: seq<Metric>, base: int)
    requires forall k :: k in old_ ==> k < base && old_[k].eventId != eid
    requires forall i :: 0 <= i < |rows| ==> rows[i].id == base + i && rows[i].eventId == eid
    requires m == old_ + NewRows(rows)
    ensures forall k :: base <= k < base + |rows| ==> k in m && m[k] == rows[k - base]
    ensures forall k :: k < base ==> !(k in m && m[k].eventId == eid)
  {
    forall k | base <= k < base + |rows|
      ensures k in m && m[k] == rows[k - base]
    {
      MergedRowAt(old_, m, eid, rows, base, k);
    }
    forall k | k < base
      ensures !(k in m && m[k].eventId == eid)
    {
      MergedRowAt(old_, m, eid, rows, base, k);
    }
  }

  /** After a commit, the fresh event's metrics, loaded in id order, are exactly the appended rows. */
  lemma {:induction false} FreshEventOwnsAppended(s': Store, eid: int, rows: seq<Metric>, base: int, n: int)
    requires 0 <= base
    requires forall i :: 0 <= i < |rows| ==> rows[i].id == base + i && rows[i].eventId == eid
    requires forall k :: base <= k < base + |rows| ==> k in s'.metrics && s'.metrics[k] == rows[k - base]
    requires forall k :: k < base ==> !(k in s'.metrics && s'.metrics[k].eventId == eid)
    requires n <= base + |rows|
    ensures MetricsOfBelow(s', eid, n) == if n <= base then [] else rows[..n - base]
    decreases n
  {
    if n > 0 {
      var k := n - 1;
      FreshEventOwnsAppended(s', eid, rows, base, k);
      FreshStep(s', eid, rows, base, k);
    }
  }

  /** One step of the loading loop over the ids of a commit. */
  lemma FreshStep(s': Store, eid: int, rows: seq<Metric>, base: int, k: int)
    requires 0 <= base && 0 <= k < base + |rows|
    requires MetricsOfBelow(s', eid, k) == if k <= base then [] else rows[..k - base]
    requires base <= k ==> k in s'.metrics && s'.metrics[k] == rows[k - base]
    requires base <= k ==> rows[k - base].id == k && rows[k - base].eventId == eid
    requires k < base ==> !(k in s'.metrics && s'.metrics[k].eventId == eid)
    ensures MetricsOfBelow(s', eid, k + 1) == if k + 1 <= base then [] else rows[..k + 1 - base]
  {
    if base <= k {
      PrefixStep(rows, k - base);
    }
  }

  // ---------------------------------------------------------------------------
  // Eager loading of an event's relationships
  // ---------------------------------------------------------------------------

  /** An association together with the tag it resolves to, if any. */
  datatype Link = Link(assoc: EventTag, tag: Option<Tag>)

  /** An event with its `metrics` and `event_tags` collections loaded. */
  datatype Loaded = Loaded(event: Event, metrics: seq<Metric>, links: seq<Link>)

  /** The metrics of event `eid` with id below `n`, in ascending id order. */
  function MetricsOfBelow(s: Store, eid: int, n: int): (r: seq<Metric>)
    ensures forall i :: 0 <= i < |r| ==>
      r[i].id in s.metrics && s.metrics[r[i].id] == r[i] && r[i].eventId == eid && r[i].id < n
    ensures forall i, j :: 0 <= i < j < |r| ==> r[i].id < r[j].id
    decreases n
  {
    if n <= 0 then []
    else
      var k := n - 1;
      MetricsOfBelow(s, eid, k)
        + (if k in s.metrics && s.metrics[k].id == k && s.metrics[k].eventId == eid then [s.metrics[k]] else [])
  }

  /** The `metrics` collection of event `eid`: every metric row it owns, in id order. */
  function MetricsOf(s: Store, eid: int): (r: seq<Metric>)
    ensures forall i :: 0 <= i < |r| ==>
      r[i].id in s.metrics && s.metrics[r[i].id] == r[i] && r[i].eventId == eid
    ensures forall i, j :: 0 <= i < j < |r| ==> r[i].id < r[j].id
  {
    MetricsOfBelow(s, eid, s.nextMetricId)
  }

  lemma {:induction false} MetricsOfBelowComplete(s: Store, eid: int, n: int, k: int)
    requires 0 <= k < n && k in s.metrics && s.metrics[k].id == k && s.metrics[k].eventId == eid
    ensures s.metrics[k] in MetricsOfBelow(s, eid, n)
    decreases n
  {
    if k < n - 1 {
      MetricsOfBelowComplete(s, eid, n - 1, k);
    }
  }

  /** In a valid store the loaded collection holds exactly the metric rows owned by the event. */
  lemma MetricsOfExact(s: Store, eid: int, m: Metric)
    requires Valid(s)
    ensures m in MetricsOf(s, eid) <==> m.id in s.metrics && s.metrics[m.id] == m && m.eventId == eid
  {
    if m.id in s.metrics && s.metrics[m.id] == m && m.eventId == eid {
      MetricsOfBelowComplete(s, eid, s.nextMetricId, m.id);
    }
  }

  /** The associations of event `eid` with tag id below `n`, in ascending tag id order. */
  function LinksOfBelow(s: Store, eid: int, n: int): (r: seq<Link>)
    ensures forall i :: 0 <= i < |r| ==>
      (eid, r[i].assoc.tagId) in s.eventTags && s.eventTags[(eid, r[i].assoc.tagId)] == r[i].assoc
    ensures forall i :: 0 <= i < |r| ==>
      r[i].tag == (if r[i].assoc.tagId in s.tags then Some(s.tags[r[i].assoc.tagId]) else None)
    decreases n
  {
    if n <= 0 then []
    else
      var t := n - 1;
      LinksOfBelow(s, eid, t)
        + (if (eid, t) in s.eventTags && s.eventTags[(eid, t)].tagId == t
           then [Link(s.eventTags[(eid, t)], if t in s.tags then Some(s.tags[t]) else None)]
           else [])
  }

  lemma {:induction false} LinksOfBelowComplete(s: Store, eid: int, n: int, t: int)
    requires 0 <= t < n && (eid, t) in s.eventTags && s.eventTags[(eid, t)].tagId == t
    ensures exists i :: 0 <= i < |LinksOfBelow(s, eid, n)| && LinksOfBelow(s, eid, n)[i].assoc == s.eventTags[(eid, t)]
    decreases n
  {
    var r := LinksOfBelow(s, eid, n);
    if t < n - 1 {
      LinksOfBelowComplete(s, eid, n - 1, t);
      var prev := LinksOfBelow(s, eid, n - 1);
      var i :| 0 <= i < |prev| && prev[i].assoc == s.eventTags[(eid, t)];
      assert r[i] == prev[i];
    } else {
      assert r[|r| - 1].assoc == s.eventTags[(eid, t)];
    }
  }

  /** In a valid store the loaded `event_tags` collection holds exactly the event's association rows. */
  lemma LinksOfExact(s: Store, eid: int, a: EventTag)
    requires Valid(s)
    ensures (exists i :: 0 <= i < |LinksOfBelow(s, eid, s.nextTagId)| && LinksOfBelow(s, eid, s.nextTagId)[i].assoc == a)
        <==> (eid, a.tagId) in s.eventTags && s.eventTags[(eid, a.tagId)] == a
  {
    if (eid, a.tagId) in s.eventTags && s.eventTags[(eid, a.tagId)] == a {
      assert (eid, a.tagId) in s.eventTags;
      LinksOfBelowComplete(s, eid, s.nextTagId, a.tagId);
    }
  }

  /**
   * Loads event `id` with its metrics and its tag associations (`selectinload`):
   * the stored event, metric rows it owns in id order, and association rows of
   * the event, each with its tag row when there is one.
   */
  function Load(s: Store, id: int): (l: Loaded)
    requires id in s.events
    ensures l.event == s.events[id]
    ensures forall i :: 0 <= i < |l.metrics| ==>
      l.metrics[i].id in s.metrics && s.metrics[l.metrics[i].id] == l.metrics[i] && l.metrics[i].eventId == id
    ensures forall i, j :: 0 <= i < j < |l.metrics| ==> l.metrics[i].id < l.metrics[j].id
    ensures forall i :: 0 <= i < |l.links| ==>
      (id, l.links[i].assoc.tagId) in s.eventTags && s.eventTags[(id, l.links[i].assoc.tagId)] == l.links[i].assoc
  {
    Loaded(s.events[id], MetricsOf(s, id), LinksOfBelow(s, id, s.nextTagId))
  }

  /** In a valid store every loaded association resolves to the tag row it names. */
  lemma LoadedLinksResolve(s: Store, id: int)
    requires Valid(s) && id in s.events
    ensures forall i :: 0 <= i < |Load(s, id).links| ==>
      Load(s, id).links[i].tag == Some(s.tags[Load(s, id).links[i].assoc.tagId])
  {
  }

  // ---------------------------------------------------------------------------
  // Deletion with cascades, and the remaining writes of the schema
  // ---------------------------------------------------------------------------

  /**
   * Deletes event `id`; its metrics and its tag associations go with it
   * (`cascade="all, delete-orphan"` on both collections). Tags stay.
   */
  function DeleteEvent(s: Store, id: int): (s': Store)
    requires Valid(s)
    ensures Valid(s')
    ensures id !in s'.events && s'.events == s.events - {id}
    ensures forall k :: k in s'.metrics ==> s'.metrics[k].eventId != id
    ensures forall k :: k in s.metrics && s.metrics[k].eventId == id ==> k !in s'.metrics
    ensures forall k :: k in s.metrics && s.metrics[k].eventId != id ==>
      k in s'.metrics && s'.metrics[k] == s.metrics[k]
    ensures forall p :: p in s'.eventTags ==> p.0 != id
    ensures forall p :: p in s.eventTags && p.0 != id ==> p in s'.eventTags && s'.eventTags[p] == s.eventTags[p]
    ensures s'.metrics.Keys <= s.metrics.Keys && s'.eventTags.Keys <= s.eventTags.Keys
    ensures s'.tags == s.tags
  {
    s.(events := s.events - {id},
       metrics := map k | k in s.metrics && s.metrics[k].eventId != id :: s.metrics[k],
       eventTags := map p | p in s.eventTags && p.0 != id :: s.eventTags[p])
  }

  /** Deleting an event leaves its loaded metrics collection empty. */
  lemma DeleteEventRemovesAllMetrics(s: Store, id: int)
    requires Valid(s)
    ensures MetricsOf(DeleteEvent(s, id), id) == []
  {
    NoMetricsBelowAfterDelete(s, id, DeleteEvent(s, id).nextMetricId);
  }

  lemma {:induction false} NoMetricsBelowAfterDelete(s: Store, id: int, n: int)
    requires Valid(s)
    ensures MetricsOfBelow(DeleteEvent(s, id), id, n) == []
    decreases n
  {
    if n > 0 {
      NoMetricsBelowAfterDelete(s, id, n - 1);
    }
  }

  /**
   * Removing only the event row, without the cascade, breaks referential
   * integrity as soon as the event owns a metric.
   */
  lemma CascadeIsNeeded(s: Store, id: int, mid: int)
    requires Valid(s) && mid in s.metrics && s.metrics[mid].eventId == id
    ensures !Valid(s.(events := s.events - {id}))
  {
    var s' := s.(events := s.events - {id});
    assert mid in s'.metrics && s'.metrics[mid].eventId !in s'.events;
  }

  /** Deletes tag `id` and its associations (`cascade="all, delete-orphan"`); events and metrics stay. */
  function DeleteTag(s: Store, id: int): (s': Store)
    requires Valid(s)
    ensures Valid(s')
    ensures s'.tags == s.tags - {id}
    ensures forall p :: p in s'.eventTags ==> p.1 != id
    ensures forall p :: p in s.eventTags && p.1 != id ==> p in s'.eventTags && s'.eventTags[p] == s.eventTags[p]
    ensures s'.eventTags.Keys <= s.eventTags.Keys
    ensures s'.events == s.events && s'.metrics == s.metrics
  {
    s.(tags := s.tags - {id},
       eventTags := map p | p in s.eventTags && p.1 != id :: s.eventTags[p])
  }

  /**
   * Removes metric `mid` from its event's `metrics` collection; with
   * `delete-orphan` the row is deleted from the store.
   */
  function RemoveMetric(s: Store, mid: int): (s': Store)
    requires Valid(s)
    ensures Valid(s')
    ensures mid !in s'.metrics
    ensures s'.metrics == s.metrics - {mid}
    ensures forall k :: k in s.metrics && k != mid ==> k in s'.metrics && s'.metrics[k] == s.metrics[k]
    ensures s'.events == s.events && s'.tags == s.tags && s'.eventTags == s.eventTags
    ensures s'.nextEventId == s.nextEventId && s'.nextMetricId == s.nextMetricId && s'.nextTagId == s.nextTagId
  {
    s.(metrics := s.metrics - {mid})
  }

  /** After the removal the event's loaded collection is the old one without that metric. */
  lemma RemoveMetricFromCollection(s: Store, mid: int, eid: int, m: Metric)
    requires Valid(s)
    ensures m in MetricsOf(RemoveMetric(s, mid), eid) <==> m in MetricsOf(s, eid) && m.id != mid
  {
    MetricsOfExact(s, eid, m);
    MetricsOfExact(RemoveMetric(s, mid), eid, m);
  }

  /** Inserts a tag; a name already in use violates the unique constraint. */
  function InsertTag(s: Store, name: string, color: Option<string>, now: int): (r: Result<(Store, Tag), StoreError>)
    requires Valid(s)
    ensures r.Failure? <==> exists id :: id in s.tags && s.tags[id].name == name
    ensures r.Failure? ==> r.error == UniqueViolation("tag.name")
    ensures r.Success? ==>
      var (s', t) := r.value;
      && Valid(s')
      && t.id !in s.tags && t.name == name && t.color == color
      && s'.tags == s.tags[t.id := t]
      && s'.events == s.events && s'.metrics == s.metrics && s'.eventTags == s.eventTags
  {
    if exists id :: id in s.tags && s.tags[id].name == name then Failure(UniqueViolation("tag.name"))
    else
      var t := Tag(s.nextTagId, name, color, Some(now));
      Success((s.(tags := s.tags[t.id := t], nextTagId := t.id + 1), t))
  }

  /**
   * Attaches tag `tid` to event `eid`. Both must exist (foreign keys) and the
   * pair must not be attached already (composite primary key).
   */
  function AttachTag(s: Store, eid: int, tid: int, now: int): (r: Result<Store, StoreError>)
    requires Valid(s)
    ensures r.Failure? <==> eid !in s.events || tid !in s.tags || (eid, tid) in s.eventTags
    ensures r.Success? ==>
      && Valid(r.value)
      && (eid, tid) !in s.eventTags
      && r.value.eventTags == s.eventTags[(eid, tid) := EventTag(eid, tid, Some(now))]
      && |r.value.eventTags| == |s.eventTags| + 1
      && r.value.events == s.events && r.value.metrics == s.metrics && r.value.tags == s.tags
  {
    if eid !in s.events then Failure(ForeignKeyViolation("event_tag.event_id"))
    else if tid !in s.tags then Failure(ForeignKeyViolation("event_tag.tag_id"))
    else if (eid, tid) in s.eventTags then Failure(PrimaryKeyViolation("event_tag"))
    else Success(s.(eventTags := s.eventTags[(eid, tid) := EventTag(eid, tid, Some(now))]))
  }

  /** In a valid store at most one association exists per (event, tag) pair. */
  lemma AtMostOneAssociationPerPair(s: Store, p: (int, int), q: (int, int))
    requires Valid(s) && p in s.eventTags && q in s.eventTags
    requires s.eventTags[p].eventId == s.eventTags[q].eventId
    requires s.eventTags[p].tagId == s.eventTags[q].tagId
    ensures p == q && s.eventTags[p] == s.eventTags[q]
  {
  }
}
