/**
 * The shared enumerations of the application: event kinds, guitar practice
 * focus areas and symbolic time ranges, each with its string value and the
 * value-to-member lookup Python's `Enum(value)` performs.
 */
module Config {
  import opened Wrappers

  /**
   * Kinds of event. The first five are the members declared by the
   * application; `Activity` is used by the activity logger but is not
   * declared alongside them, so the model adds it with value "activity".
   */
  datatype EventType = Guitar | Harmonica | Note | Study | Workout | Activity

  /** The members actually declared in the application's enumeration. */
  const DeclaredEventTypes: seq<EventType> := [Guitar, Harmonica, Note, Study, Workout]

  /** The string value of an event type, as stored in the `type` column. */
  function EventTypeValue(t: EventType): (v: string)
    ensures |v| > 0
  {
    match t
    case Guitar => "guitar"
    case Harmonica => "harmonica"
    case Note => "note"
    case Study => "study"
    case Workout => "workout"
    case Activity => "activity"
  }

  /** `EventTypes(v)`: the member whose value is `v`, if any. */
  function ParseEventType(v: string): (r: Option<EventType>)
    ensures r.Some? ==> EventTypeValue(r.value) == v
  {
    if v == "guitar" then Some(Guitar)
    else if v == "harmonica" then Some(Harmonica)
    else if v == "note" then Some(Note)
    else if v == "study" then Some(Study)
    else if v == "workout" then Some(Workout)
    else if v == "activity" then Some(Activity)
    else None
  }

  /** Value lookup inverts `EventTypeValue`, so the member-to-value map is injective. */
  lemma EventTypeRoundTrip(t: EventType)
    ensures ParseEventType(EventTypeValue(t)) == Some(t)
  {
  }

  lemma EventTypeValueInjective(a: EventType, b: EventType)
    ensures EventTypeValue(a) == EventTypeValue(b) <==> a == b
  {
    EventTypeRoundTrip(a);
    EventTypeRoundTrip(b);
  }

  /** The declared enumeration has exactly five members with pairwise distinct values. */
  lemma DeclaredEventTypesAreFive()
    ensures |DeclaredEventTypes| == 5
    ensures forall i, j :: 0 <= i < j < 5 ==>
      EventTypeValue(DeclaredEventTypes[i]) != EventTypeValue(DeclaredEventTypes[j])
    ensures (set i | 0 <= i < 5 :: EventTypeValue(DeclaredEventTypes[i]))
         == {"guitar", "harmonica", "note", "study", "workout"}
    ensures Activity !in DeclaredEventTypes
  {
    var vs := set i | 0 <= i < 5 :: EventTypeValue(DeclaredEventTypes[i]);
    assert EventTypeValue(DeclaredEventTypes[0]) == "guitar";
    assert EventTypeValue(DeclaredEventTypes[1]) == "harmonica";
    assert EventTypeValue(DeclaredEventTypes[2]) == "note";
    assert EventTypeValue(DeclaredEventTypes[3]) == "study";
    assert EventTypeValue(DeclaredEventTypes[4]) == "workout";
    assert vs == {"guitar", "harmonica", "note", "study", "workout"};
  }

  /** Focus areas of a guitar practice session. */
  datatype GuitarFocus = Course | Scale | Song | Writing | Theory

  /** The members of the enumeration, in declaration order. */
  const DeclaredGuitarFoci: seq<GuitarFocus> := [Course, Scale, Song, Writing, Theory]

  /** The string value of a focus area, as accepted by `--focus`. */
  function GuitarFocusValue(f: GuitarFocus): (v: string)
    ensures |v| > 0
  {
    match f
    case Course => "course"
    case Scale => "scale"
    case Song => "song"
    case Writing => "writing"
    case Theory => "theory"
  }

  /** `GuitarFocus(v)`: the member whose value is `v`, if any. */
  function ParseGuitarFocus(v: string): (r: Option<GuitarFocus>)
    ensures r.Some? ==> GuitarFocusValue(r.value) == v
  {
    if v == "course" then Some(Course)
    else if v == "scale" then Some(Scale)
    else if v == "song" then Some(Song)
    else if v == "writing" then Some(Writing)
    else if v == "theory" then Some(Theory)
    else None
  }

  /**
   * The enumeration has exactly five members, every focus is one of them,
   * and their values are distinct and are exactly course, scale, song,
   * writing and theory.
   */
  lemma GuitarFociAreFive(f: GuitarFocus)
    ensures |DeclaredGuitarFoci| == 5
    ensures f in DeclaredGuitarFoci
    ensures forall i, j :: 0 <= i < j < 5 ==>
      GuitarFocusValue(DeclaredGuitarFoci[i]) != GuitarFocusValue(DeclaredGuitarFoci[j])
    ensures (set i | 0 <= i < 5 :: GuitarFocusValue(DeclaredGuitarFoci[i]))
         == {"course", "scale", "song", "writing", "theory"}
  {
    var vs := set i | 0 <= i < 5 :: GuitarFocusValue(DeclaredGuitarFoci[i]);
    assert GuitarFocusValue(DeclaredGuitarFoci[0]) == "course";
    assert GuitarFocusValue(DeclaredGuitarFoci[1]) == "scale";
    assert GuitarFocusValue(DeclaredGuitarFoci[2]) == "song";
    assert GuitarFocusValue(DeclaredGuitarFoci[3]) == "writing";
    assert GuitarFocusValue(DeclaredGuitarFoci[4]) == "theory";
    assert vs == {"course", "scale", "song", "writing", "theory"};
  }

  lemma GuitarFocusRoundTrip(f: GuitarFocus)
    ensures ParseGuitarFocus(GuitarFocusValue(f)) == Some(f)
  {
  }

  /** The metric name a guitar session with focus `f` is logged under. */
  function GuitarMetricName(f: GuitarFocus): (n: string)
    ensures |n| > 7 && n[..7] == "guitar_"
  {
    "guitar_" + GuitarFocusValue(f)
  }

  /** Distinct focus areas give distinct metric names. */
  lemma GuitarMetricNameInjective(a: GuitarFocus, b: GuitarFocus)
    ensures GuitarMetricName(a) == GuitarMetricName(b) <==> a == b
  {
    if GuitarMetricName(a) == GuitarMetricName(b) {
      assert GuitarFocusValue(a) == GuitarMetricName(a)[7..];
      assert GuitarFocusValue(b) == GuitarMetricName(b)[7..];
      GuitarFocusRoundTrip(a);
      GuitarFocusRoundTrip(b);
    }
  }

  /** Symbolic time ranges; a `str` enumeration whose values equal the member names. */
  datatype TimeRange = Today | Week | Month

  /** The members of the enumeration, in declaration order. */
  const DeclaredTimeRanges: seq<TimeRange> := [Today, Week, Month]

  /** The string value of a time range; for this `str` enumeration it is the member's name. */
  function TimeRangeValue(r: TimeRange): (v: string)
    ensures |v| > 0
  {
    match r
    case Today => "today"
    case Week => "week"
    case Month => "month"
  }

  /**
   * The enumeration has exactly three members, every time range is one of
   * them, and their values are distinct and are exactly today, week and month.
   */
  lemma TimeRangesAreThree(r: TimeRange)
    ensures |DeclaredTimeRanges| == 3
    ensures r in DeclaredTimeRanges
    ensures forall i, j :: 0 <= i < j < 3 ==>
      TimeRangeValue(DeclaredTimeRanges[i]) != TimeRangeValue(DeclaredTimeRanges[j])
    ensures (set i | 0 <= i < 3 :: TimeRangeValue(DeclaredTimeRanges[i])) == {"today", "week", "month"}
  {
    var vs := set i | 0 <= i < 3 :: TimeRangeValue(DeclaredTimeRanges[i]);
    assert TimeRangeValue(DeclaredTimeRanges[0]) == "today";
    assert TimeRangeValue(DeclaredTimeRanges[1]) == "week";
    assert TimeRangeValue(DeclaredTimeRanges[2]) == "month";
    assert vs == {"today", "week", "month"};
  }

  function ParseTimeRange(v: string): (r: Option<TimeRange>)
    ensures r.Some? ==> TimeRangeValue(r.value) == v
  {
    if v == "today" then Some(Today)
    else if v == "week" then Some(Week)
    else if v == "month" then Some(Month)
    else None
  }

  lemma TimeRangeRoundTrip(r: TimeRange)
    ensures ParseTimeRange(TimeRangeValue(r)) == Some(r)
  {
  }
}
