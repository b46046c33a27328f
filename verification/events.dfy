/**
 * The activity loggers and the "today" query of the application's event
 * service. Each logger derives one event and an ordered list of metrics from
 * a typed request and the current date, then commits them in one unit of
 * work. The current date and the commit instant are parameters.
 */
module Events {
  import opened Wrappers
  import opened Config
  import opened Calendar
  import opened EntityStore
  import opened Sorting

  /** One logging request per activity kind, carrying only that kind's fields. */
  datatype Request =
    | WorkoutRequest(
        dips: Option<int>, planks: Option<int>, pushups: Option<int>, pullups: Option<int>,
        rows: Option<int>, situps: Option<int>, squats: Option<int>, notes: Option<string>)
    | GuitarRequest(focus: GuitarFocus, minutes: Option<Number>, notes: Option<string>)
    | ActivityRequest(name: string, minutes: Option<Number>, notes: Option<string>)

  // ---------------------------------------------------------------------------
  // Workout metrics
  // ---------------------------------------------------------------------------

  /** Python truthiness of an optional count: present and non-zero. */
  predicate Truthy(count: Option<int>) {
    count.Some? && count.value != 0
  }

  /** `append_workout_metric`: one more metric at the end of the pending list. */
  function AppendWorkoutMetric(ms: seq<MetricDraft>, name: string, value: int, unit: string): (r: seq<MetricDraft>)
    ensures |r| == |ms| + 1 && r[..|ms|] == ms
    ensures r[|ms|].name == name && r[|ms|].value == Some(Int(value)) && r[|ms|].unit == Some(unit)
  {
    ms + [MetricDraft(name, Some(Int(value)), Some(unit))]
  }

  /** The `if <counter>: append_workout_metric(...)` step for one counter. */
  function AppendIfTruthy(ms: seq<MetricDraft>, name: string, count: Option<int>, unit: string): seq<MetricDraft> {
    if Truthy(count) then AppendWorkoutMetric(ms, name, count.value, unit) else ms
  }

  /** A named workout counter with the unit its metric is recorded in. */
  datatype Counter = Counter(name: string, count: Option<int>, unit: string)

  /** The seven counters of a workout in the order the logger tests them. */
  function WorkoutCounters(w: Request): (cs: seq<Counter>)
    requires w.WorkoutRequest?
    ensures |cs| == 7
  {
    [ Counter("dips", w.dips, "rep"), Counter("planks", w.planks, "sec"),
      Counter("pushups", w.pushups, "rep"), Counter("pullups", w.pullups, "rep"),
      Counter("rows", w.rows, "rep"), Counter("squats", w.squats, "rep"),
      Counter("situps", w.situps, "rep") ]
  }

  /** Position of a counter name in the fixed workout order; -1 for any other name. */
  function WorkoutRank(name: string): int {
    if name == "dips" then 0
    else if name == "planks" then 1
    else if name == "pushups" then 2
    else if name == "pullups" then 3
    else if name == "rows" then 4
    else if name == "squats" then 5
    else if name == "situps" then 6
    else -1
  }

  /** The metric a truthy counter yields. */
  function CounterMetric(c: Counter): MetricDraft
    requires c.count.Some?
  {
    MetricDraft(c.name, Some(Int(c.count.value)), Some(c.unit))
  }

  /** Runs the conditional append of each counter in turn, starting from no metrics. */
  function KeptMetrics(cs: seq<Counter>): seq<MetricDraft>
    decreases |cs|
  {
    if |cs| == 0 then []
    else
      var c := cs[|cs| - 1];
      AppendIfTruthy(KeptMetrics(cs[..|cs| - 1]), c.name, c.count, c.unit)
  }

  /**
   * The metrics `log_workout` appends: its seven `if <counter>:` tests run
   * in the order of `WorkoutCounters`.
   */
  function WorkoutMetrics(w: Request): (r: seq<MetricDraft>)
    requires w.WorkoutRequest?
    ensures |r| <= 7 && AllValuesPresent(r)
    ensures forall i :: 0 <= i < |r| ==> 0 <= WorkoutRank(r[i].name) < 7
    ensures forall i, j :: 0 <= i < j < |r| ==> WorkoutRank(r[i].name) < WorkoutRank(r[j].name)
  {
    var cs := WorkoutCounters(w);
    assert Ranked(cs);
    KeptOrigin(cs);
    KeptMetrics(cs)
  }

  lemma KeptLast(cs: seq<Counter>)
    requires |cs| > 0
    ensures var c := cs[|cs| - 1];
      KeptMetrics(cs) == KeptMetrics(cs[..|cs| - 1]) + (if Truthy(c.count) then [CounterMetric(c)] else [])
  {
  }

  /** Counter `k` sits at position `k` of the fixed order. */
  predicate Ranked(cs: seq<Counter>) {
    forall k :: 0 <= k < |cs| ==> WorkoutRank(cs[k].name) == k
  }

  /** The number of metrics named `name`. */
  function CountNamed(ms: seq<MetricDraft>, name: string): nat
    decreases |ms|
  {
    if |ms| == 0 then 0
    else CountNamed(ms[..|ms| - 1], name) + (if ms[|ms| - 1].name == name then 1 else 0)
  }

  lemma {:induction false} KeptOrigin(cs: seq<Counter>)
    requires Ranked(cs)
    ensures |KeptMetrics(cs)| <= |cs|
    ensures forall i :: 0 <= i < |KeptMetrics(cs)| ==>
      var k := WorkoutRank(KeptMetrics(cs)[i].name);
      0 <= k < |cs| && Truthy(cs[k].count) && KeptMetrics(cs)[i] == CounterMetric(cs[k])
    ensures forall i, j :: 0 <= i < j < |KeptMetrics(cs)| ==>
      WorkoutRank(KeptMetrics(cs)[i].name) < WorkoutRank(KeptMetrics(cs)[j].name)
    decreases |cs|
  {
    if |cs| > 0 {
      var p := cs[..|cs| - 1];
      assert Ranked(p);
      KeptOrigin(p);
      KeptLast(cs);
    }
  }

  lemma {:induction false} CountAbsent(ms: seq<MetricDraft>, name: string)
    requires forall i :: 0 <= i < |ms| ==> ms[i].name != name
    ensures CountNamed(ms, name) == 0
    decreases |ms|
  {
    if |ms| > 0 {
      CountAbsent(ms[..|ms| - 1], name);
    }
  }

  lemma {:induction false} KeptCount(cs: seq<Counter>, k: int)
    requires Ranked(cs) && 0 <= k < |cs|
    ensures CountNamed(KeptMetrics(cs), cs[k].name) == if Truthy(cs[k].count) then 1 else 0
    decreases |cs|
  {
    var p := cs[..|cs| - 1];
    var c := cs[|cs| - 1];
    assert Ranked(p);
    var ms := KeptMetrics(cs);
    var mp := KeptMetrics(p);
    KeptLast(cs);
    if Truthy(c.count) {
      assert ms[..|ms| - 1] == mp;
    } else {
      assert ms == mp;
    }
    if k < |cs| - 1 {
      KeptCount(p, k);
      assert WorkoutRank(c.name) != WorkoutRank(cs[k].name);
    } else {
      KeptOrigin(p);
      CountAbsent(mp, c.name);
    }
  }

  /**
   * A workout yields at most seven metrics, one per present non-zero
   * counter and none for an absent or zero counter; each carries the
   * counter's name, its count and its unit, and they follow the fixed order
   * dips, planks, pushups, pullups, rows, squats, situps.
   */
  lemma WorkoutMetricsSpec(w: Request)
    requires w.WorkoutRequest?
    ensures |WorkoutMetrics(w)| <= 7
    ensures forall k :: 0 <= k < 7 ==>
      CountNamed(WorkoutMetrics(w), WorkoutCounters(w)[k].name)
        == if Truthy(WorkoutCounters(w)[k].count) then 1 else 0
    ensures forall i :: 0 <= i < |WorkoutMetrics(w)| ==>
      var k := WorkoutRank(WorkoutMetrics(w)[i].name);
      0 <= k < 7 && Truthy(WorkoutCounters(w)[k].count)
      && WorkoutMetrics(w)[i] == CounterMetric(WorkoutCounters(w)[k])
    ensures forall i, j :: 0 <= i < j < |WorkoutMetrics(w)| ==>
      WorkoutRank(WorkoutMetrics(w)[i].name) < WorkoutRank(WorkoutMetrics(w)[j].name)
  {
    var cs := WorkoutCounters(w);
    assert Ranked(cs);
    KeptOrigin(cs);
    forall k | 0 <= k < 7
      ensures CountNamed(WorkoutMetrics(w), cs[k].name) == if Truthy(cs[k].count) then 1 else 0
    {
      KeptCount(cs, k);
    }
  }

  /** Planks are recorded in seconds, every other counter in repetitions; the value is the count. */
  lemma WorkoutMetricUnits(w: Request)
    requires w.WorkoutRequest?
    ensures AllValuesPresent(WorkoutMetrics(w))
    ensures forall i :: 0 <= i < |WorkoutMetrics(w)| ==>
      && WorkoutMetrics(w)[i].unit == Some(if WorkoutMetrics(w)[i].name == "planks" then "sec" else "rep")
      && WorkoutMetrics(w)[i].value.Some? && WorkoutMetrics(w)[i].value.value.Int?
      && WorkoutMetrics(w)[i].value.value.i != 0
  {
    WorkoutMetricsSpec(w);
    var ms := WorkoutMetrics(w);
    var cs := WorkoutCounters(w);
    forall i | 0 <= i < |ms|
      ensures ms[i].unit == Some(if ms[i].name == "planks" then "sec" else "rep")
      ensures ms[i].value.Some? && ms[i].value.value.Int? && ms[i].value.value.i != 0
    {
      var k := WorkoutRank(ms[i].name);
      assert ms[i] == CounterMetric(cs[k]);
      assert cs[k].unit == (if cs[k].name == "planks" then "sec" else "rep");
    }
  }

  // ---------------------------------------------------------------------------
  // Deriving the event and logging it
  // ---------------------------------------------------------------------------

  /** `f"{prefix} {date:%d-%m-%Y}"`. */
  function DatedTitle(prefix: string, today: Date): (t: string)
    requires ValidDate(today)
    ensures |t| == |prefix| + 11 && t[..|prefix|] == prefix && t[|prefix|] == ' '
    ensures ParseDate(t[|prefix| + 1..]) == Some(today)
  {
    ParseFormatRoundTrip(today);
    var t := prefix + " " + FormatDate(today);
    assert t[|prefix| + 1..] == FormatDate(today);
    t
  }

  /** The event and the ordered metrics a request yields on date `today`. */
  function Derive(req: Request, today: Date): (r: (EventDraft, seq<MetricDraft>))
    requires ValidDate(today)
    ensures r.0.kind == Workout <==> req.WorkoutRequest?
    ensures r.0.kind == Guitar <==> req.GuitarRequest?
    ensures r.0.kind == Activity <==> req.ActivityRequest?
    ensures r.0.rawText == None && r.0.notes == req.notes
    ensures r.0.title.Some? && |r.0.title.value| >= 10
    ensures ParseDate(r.0.title.value[|r.0.title.value| - 10..]) == Some(today)
    ensures req.WorkoutRequest? ==> |r.1| <= 7 && AllValuesPresent(r.1)
    ensures !req.WorkoutRequest? ==> |r.1| == 1 && r.1[0].value == req.minutes
  {
    match req
    case WorkoutRequest(_, _, _, _, _, _, _, notes) =>
      (EventDraft(Workout, Some(DatedTitle("workout", today)), None, notes), WorkoutMetrics(req))
    case GuitarRequest(focus, minutes, notes) =>
      (EventDraft(Guitar, Some(DatedTitle("guitar", today)), None, notes),
       [MetricDraft(GuitarMetricName(focus), minutes, Some("min"))])
    case ActivityRequest(name, minutes, notes) =>
      (EventDraft(Activity, Some(DatedTitle(name, today)), None, notes),
       [MetricDraft(name, minutes, None)])
  }

  /** The store after a logging call, and the event it returns or the error it raises. */
  datatype LogOutcome = LogOutcome(store: Store, result: Result<Event, StoreError>)

  /** Whether the request carries no value for its single metric. */
  predicate MissingMinutes(req: Request) {
    !req.WorkoutRequest? && req.minutes.None?
  }

  /**
   * `log_workout`, `log_guitar` and `log_activity`: derive, then commit the
   * event and its metrics at instant `now` in one unit of work.
   */
  function Log(s: Store, req: Request, today: Date, now: int): (o: LogOutcome)
    requires Valid(s) && ValidDate(today)
    ensures o.result.Failure? <==> MissingMinutes(req)
    ensures o.result.Failure? ==> o.store == s && o.result.error == NotNullViolation("event_metric.value")
    ensures o.result.Success? ==>
      AllValuesPresent(Derive(req, today).1)
      && Committed(s, o.store, o.result.value, Derive(req, today).0, Derive(req, today).1, now)
  {
    var (d, ms) := Derive(req, today);
    assert AllValuesPresent(ms) <==> !MissingMinutes(req) by {
      if req.WorkoutRequest? {
        WorkoutMetricUnits(req);
      } else {
        assert |ms| == 1 && ms[0].value == req.minutes;
      }
    }
    match Commit(s, d, ms, now)
    case Success((s', e)) => LogOutcome(s', Success(e))
    case Failure(err) => LogOutcome(s, Failure(err))
  }

  /** What a successful log returns and stores, read off the commit. */
  lemma LoggedAsDerived(s: Store, req: Request, today: Date, now: int)
    requires Valid(s) && ValidDate(today) && !MissingMinutes(req)
    ensures var o := Log(s, req, today, now); var (d, ms) := Derive(req, today);
      && o.result.Success?
      && AllValuesPresent(ms)
      && o.result.value == EventRow(d, o.result.value.id, now)
      && MetricsOf(o.store, o.result.value.id) == MetricRows(ms, s.nextMetricId, o.result.value.id, now)
  {
  }

  lemma WorkoutTitle(today: Date)
    requires ValidDate(today)
    ensures DatedTitle("workout", today) == "workout " + FormatDate(today)
    ensures DatedTitle("guitar", today) == "guitar " + FormatDate(today)
  {
    assert "workout" + " " == "workout ";
    assert "guitar" + " " == "guitar ";
  }

  /**
   * A logged workout: type WORKOUT, title "workout DD-MM-YYYY", no raw text,
   * the notes unchanged, and its stored metrics exactly the workout metrics.
   */
  lemma LogWorkoutResult(s: Store, w: Request, today: Date, now: int)
    requires Valid(s) && ValidDate(today) && w.WorkoutRequest?
    ensures Log(s, w, today, now).result.Success?
    ensures var o := Log(s, w, today, now); var e := o.result.value;
      && e.kind == Workout
      && e.title == Some("workout " + FormatDate(today))
      && e.rawText == None
      && e.notes == w.notes
      && e.timestamp == Some(now)
      && |MetricsOf(o.store, e.id)| == |WorkoutMetrics(w)|
      && (forall i :: 0 <= i < |WorkoutMetrics(w)| ==>
            var m := MetricsOf(o.store, e.id)[i];
            m.eventId == e.id && m.name == WorkoutMetrics(w)[i].name
            && WorkoutMetrics(w)[i].value.Some?
            && m.value == StoredValue(WorkoutMetrics(w)[i].value.value) && m.unit == WorkoutMetrics(w)[i].unit)
  {
    LoggedAsDerived(s, w, today, now);
    WorkoutTitle(today);
    var o := Log(s, w, today, now);
    var e := o.result.value;
    var ms := WorkoutMetrics(w);
    var rows := MetricsOf(o.store, e.id);
    assert rows == MetricRows(ms, s.nextMetricId, e.id, now);
    forall i | 0 <= i < |ms|
      ensures rows[i].eventId == e.id && rows[i].name == ms[i].name
      ensures rows[i].value == StoredValue(ms[i].value.value) && rows[i].unit == ms[i].unit
    {
      MetricRowsAt(ms, s.nextMetricId, e.id, now, i);
    }
  }

  /**
   * A logged guitar session: type GUITAR, title "guitar DD-MM-YYYY" and
   * exactly one stored metric "guitar_<focus>" holding the minutes in "min".
   */
  lemma LogGuitarResult(s: Store, focus: GuitarFocus, minutes: Number, notes: Option<string>, today: Date, now: int)
    requires Valid(s) && ValidDate(today)
    ensures var o := Log(s, GuitarRequest(focus, Some(minutes), notes), today, now);
      && o.result.Success?
      && o.result.value.kind == Guitar
      && o.result.value.title == Some("guitar " + FormatDate(today))
      && o.result.value.rawText == None
      && o.result.value.notes == notes
      && |MetricsOf(o.store, o.result.value.id)| == 1
      && MetricsOf(o.store, o.result.value.id)[0].name == "guitar_" + GuitarFocusValue(focus)
      && MetricsOf(o.store, o.result.value.id)[0].value == StoredValue(minutes)
      && MetricsOf(o.store, o.result.value.id)[0].unit == Some("min")
  {
    var req := GuitarRequest(focus, Some(minutes), notes);
    LoggedAsDerived(s, req, today, now);
    WorkoutTitle(today);
    SingleMetricStored(s, req, today, now);
  }

  /** A guitar or activity log stores exactly one metric row: its draft, committed. */
  lemma SingleMetricStored(s: Store, req: Request, today: Date, now: int)
    requires Valid(s) && ValidDate(today) && !req.WorkoutRequest? && req.minutes.Some?
    ensures var o := Log(s, req, today, now);
      && o.result.Success?
      && MetricsOf(o.store, o.result.value.id)
         == [MetricRow(Derive(req, today).1[0], s.nextMetricId, o.result.value.id, now)]
  {
    LoggedAsDerived(s, req, today, now);
    var o := Log(s, req, today, now);
    SingleRow(Derive(req, today).1, s.nextMetricId, o.result.value.id, now);
  }

  lemma SingleRow(ms: seq<MetricDraft>, base: int, eventId: int, now: int)
    requires |ms| == 1 && AllValuesPresent(ms)
    ensures MetricRows(ms, base, eventId, now) == [MetricRow(ms[0], base, eventId, now)]
  {
    MetricRowsAt(ms, base, eventId, now, 0);
  }

  /**
   * A logged activity: type ACTIVITY, title "<name> DD-MM-YYYY" and exactly
   * one stored metric named after the activity holding the minutes, no unit.
   */
  lemma LogActivityResult(s: Store, name: string, minutes: Number, notes: Option<string>, today: Date, now: int)
    requires Valid(s) && ValidDate(today)
    ensures var o := Log(s, ActivityRequest(name, Some(minutes), notes), today, now);
      && o.result.Success?
      && o.result.value.kind == Activity
      && o.result.value.title == Some(name + " " + FormatDate(today))
      && o.result.value.rawText == None
      && o.result.value.notes == notes
      && |MetricsOf(o.store, o.result.value.id)| == 1
      && MetricsOf(o.store, o.result.value.id)[0].name == name
      && MetricsOf(o.store, o.result.value.id)[0].value == StoredValue(minutes)
      && MetricsOf(o.store, o.result.value.id)[0].unit == None
  {
    var req := ActivityRequest(name, Some(minutes), notes);
    LoggedAsDerived(s, req, today, now);
    SingleMetricStored(s, req, today, now);
  }

  // ---------------------------------------------------------------------------
  // Today's events
  // ---------------------------------------------------------------------------

  /** `between(Event.timestamp, lo, hi)`: both ends inclusive; a null timestamp never matches. */
  predicate InWindow(e: Event, lo: int, hi: int) {
    e.timestamp.Some? && lo <= e.timestamp.value <= hi
  }

  /** The sort key of an event, its timestamp. */
  function Timestamp(e: Event): int {
    e.timestamp.ValueOr(0)
  }

  /** Stored events with id below `n` inside the window, in id order (a table scan). */
  function EventsInWindowBelow(s: Store, lo: int, hi: int, n: int): (r: seq<Event>)
    ensures forall i :: 0 <= i < |r| ==>
      r[i].id in s.events && s.events[r[i].id] == r[i] && InWindow(r[i], lo, hi) && r[i].id < n
    ensures forall i, j :: 0 <= i < j < |r| ==> r[i].id < r[j].id
    decreases n
  {
    if n <= 0 then []
    else
      var k := n - 1;
      EventsInWindowBelow(s, lo, hi, k)
        + (if k in s.events && s.events[k].id == k && InWindow(s.events[k], lo, hi) then [s.events[k]] else [])
  }

  lemma {:induction false} EventsInWindowBelowComplete(s: Store, lo: int, hi: int, n: int, k: int)
    requires 0 <= k < n && k in s.events && s.events[k].id == k && InWindow(s.events[k], lo, hi)
    ensures s.events[k] in EventsInWindowBelow(s, lo, hi, n)
    decreases n
  {
    if k < n - 1 {
      EventsInWindowBelowComplete(s, lo, hi, n - 1, k);
    }
  }

  /** Events whose timestamp falls on `today`, as the window predicate. */
  predicate IsToday(e: Event, today: Date)
    requires ValidDate(today)
  {
    InWindow(e, StartOfDay(today), EndOfDay(today))
  }

  // ---------------------------------------------------------------------------
  // The window as the database evaluates it
  // ---------------------------------------------------------------------------

  const MicrosPerSecond: int := 1_000_000

  /**
   * A SQLite datetime text, reduced to what orders it: the whole seconds
   * written in the fixed-width `YYYY-MM-DD HH:MM:SS` prefix, and the
   * `.ffffff` suffix when there is one. `CURRENT_TIMESTAMP`, the column's
   * server default, writes no suffix; a bound Python datetime is written
   * with six fraction digits.
   */
  datatype SqlText = SqlText(seconds: int, fraction: Option<int>)

  /**
   * Text order: the prefix decides first; on equal prefixes a text without
   * a suffix is a proper prefix of one with a suffix, hence smaller; two
   * six-digit suffixes compare as numbers.
   */
  predicate TextLe(a: SqlText, b: SqlText) {
    || a.seconds < b.seconds
    || (a.seconds == b.seconds
        && (a.fraction.None? || (b.fraction.Some? && a.fraction.value <= b.fraction.value)))
  }

  /** The text `CURRENT_TIMESTAMP` stores for instant `t`: seconds only. */
  function StoredText(t: int): SqlText {
    SqlText(t / MicrosPerSecond, None)
  }

  /** The text a bound datetime parameter is written as: seconds and six fraction digits. */
  function BoundText(t: int): SqlText {
    SqlText(t / MicrosPerSecond, Some(t % MicrosPerSecond))
  }

  /** `between(Event.timestamp, lo, hi)` as the database runs it: a text comparison. */
  predicate InWindowAsWritten(e: Event, lo: int, hi: int) {
    && e.timestamp.Some?
    && TextLe(BoundText(lo), StoredText(e.timestamp.value))
    && TextLe(StoredText(e.timestamp.value), BoundText(hi))
  }

  lemma SecondPins(t: int, q: int)
    requires q * MicrosPerSecond <= t < q * MicrosPerSecond + MicrosPerSecond
    ensures t / MicrosPerSecond == q && t % MicrosPerSecond == t - q * MicrosPerSecond
  {
    var r := t - q * MicrosPerSecond;
    assert t == MicrosPerSecond * q + r;
  }

  /**
   * For a timestamp stored at a whole second, the text comparison accepts
   * exactly the instants from one second after midnight to the end of the
   * day: the stored midnight `...00:00:00` sorts below the bound
   * `...00:00:00.000000`.
   */
  lemma AsWrittenWindow(d: Date, sec: int)
    requires ValidDate(d)
    ensures var t := sec * MicrosPerSecond;
      && (TextLe(BoundText(StartOfDay(d)), StoredText(t)) <==> StartOfDay(d) + MicrosPerSecond <= t)
      && (TextLe(StoredText(t), BoundText(EndOfDay(d))) <==> t <= EndOfDay(d))
  {
    var b := (Ordinal(d) - 1) * 86_400;
    var t := sec * MicrosPerSecond;
    assert StartOfDay(d) == b * MicrosPerSecond;
    SecondPins(StartOfDay(d), b);
    SecondPins(EndOfDay(d), b + 86_399);
    SecondPins(t, sec);
  }

  /**
   * The discrepancy: an event stamped at midnight of `d` falls on day `d`,
   * but the text comparison leaves it out of that day's window.
   */
  lemma MidnightEventDroppedAsWritten(d: Date, e: Event)
    requires ValidDate(d) && e.timestamp == Some(StartOfDay(d))
    ensures IsToday(e, d)
    ensures !InWindowAsWritten(e, StartOfDay(d), EndOfDay(d))
  {
    var b := (Ordinal(d) - 1) * 86_400;
    assert StartOfDay(d) == b * MicrosPerSecond;
    AsWrittenWindow(d, b);
  }

  /**
   * `select_events_today`: every stored event whose timestamp lies in
   * [00:00:00.000000, 23:59:59.999999] of `today`, each exactly once,
   * ordered by timestamp, with metrics and tags loaded.
   */
  function SelectEventsToday(s: Store, today: Date): (r: seq<Loaded>)
    requires Valid(s) && ValidDate(today)
    ensures forall i :: 0 <= i < |r| ==>
      r[i].event.id in s.events && r[i] == Load(s, r[i].event.id) && IsToday(r[i].event, today)
    ensures forall id :: id in s.events && IsToday(s.events[id], today) ==> Load(s, id) in r
    ensures forall i, j :: 0 <= i < j < |r| ==> r[i].event.id != r[j].event.id
    ensures forall i, j :: 0 <= i < j < |r| ==> Timestamp(r[i].event) <= Timestamp(r[j].event)
  {
    var candidates := EventsInWindowBelow(s, StartOfDay(today), EndOfDay(today), s.nextEventId);
    var sorted := SortBy(candidates, Timestamp);
    TodaySelection(s, today, candidates, sorted);
    var r := LoadAll(s, sorted);
    TodayLoaded(s, today, sorted, r);
    r
  }

  /** Loads each event of `es` with its relationships, keeping the order. */
  function LoadAll(s: Store, es: seq<Event>): (r: seq<Loaded>)
    requires forall i :: 0 <= i < |es| ==> es[i].id in s.events
    ensures |r| == |es|
  {
    seq(|es|, i requires 0 <= i < |es| => Load(s, es[i].id))
  }

  lemma TodayLoaded(s: Store, today: Date, sorted: seq<Event>, r: seq<Loaded>)
    requires Valid(s) && ValidDate(today)
    requires forall i :: 0 <= i < |sorted| ==>
      sorted[i].id in s.events && s.events[sorted[i].id] == sorted[i] && IsToday(sorted[i], today)
    requires forall id :: id in s.events && IsToday(s.events[id], today) ==> s.events[id] in sorted
    requires forall i, j :: 0 <= i < j < |sorted| ==> sorted[i].id != sorted[j].id
    requires SortedBy(sorted, Timestamp)
    requires r == LoadAll(s, sorted)
    ensures forall i :: 0 <= i < |r| ==>
      r[i].event.id in s.events && r[i] == Load(s, r[i].event.id) && IsToday(r[i].event, today)
    ensures forall id :: id in s.events && IsToday(s.events[id], today) ==> Load(s, id) in r
    ensures forall i, j :: 0 <= i < j < |r| ==> r[i].event.id != r[j].event.id
    ensures forall i, j :: 0 <= i < j < |r| ==> Timestamp(r[i].event) <= Timestamp(r[j].event)
  {
    forall i | 0 <= i < |r|
      ensures r[i].event == sorted[i]
    {
      assert r[i] == Load(s, sorted[i].id);
    }
    forall id | id in s.events && IsToday(s.events[id], today)
      ensures Load(s, id) in r
    {
      var i :| 0 <= i < |sorted| && sorted[i] == s.events[id];
      assert r[i] == Load(s, id);
    }
  }

  lemma TodaySelection(s: Store, today: Date, candidates: seq<Event>, sorted: seq<Event>)
    requires Valid(s) && ValidDate(today)
    requires candidates == EventsInWindowBelow(s, StartOfDay(today), EndOfDay(today), s.nextEventId)
    requires multiset(sorted) == multiset(candidates)
    ensures forall i :: 0 <= i < |sorted| ==>
      sorted[i].id in s.events && s.events[sorted[i].id] == sorted[i] && IsToday(sorted[i], today)
    ensures forall id :: id in s.events && IsToday(s.events[id], today) ==> s.events[id] in sorted
    ensures forall i, j :: 0 <= i < j < |sorted| ==> sorted[i].id != sorted[j].id
  {
    forall i | 0 <= i < |sorted|
      ensures sorted[i] in candidates
    {
      assert sorted[i] in multiset(sorted);
    }
    forall id | id in s.events && IsToday(s.events[id], today)
      ensures s.events[id] in sorted
    {
      EventsInWindowBelowComplete(s, StartOfDay(today), EndOfDay(today), s.nextEventId, id);
      assert s.events[id] in multiset(candidates);
    }
    assert Distinct(candidates);
    PermutationKeepsDistinct(candidates, sorted);
  }

  /** An event timestamped on any other day is not among today's events. */
  lemma OtherDaysExcluded(s: Store, today: Date, other: Date, id: int)
    requires Valid(s) && ValidDate(today) && ValidDate(other) && other != today
    requires id in s.events && IsToday(s.events[id], other)
    ensures forall l :: l in SelectEventsToday(s, today) ==> l.event.id != id
  {
    DayWindowsDisjoint(other, today, s.events[id].timestamp.value);
  }
}
