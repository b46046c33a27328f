/**
 * The guards of the `log` subcommands: which command-line requests reach the
 * loggers, which are rejected with a usage error, and which are dropped
 * without touching the store. Echo output, the prompt loop and the wall-clock
 * timer are not modelled; a recorded session is given as its result.
 */
module Commands {
  import opened Wrappers
  import opened Config
  import opened Calendar
  import opened EntityStore
  import opened Events

  /** What a guard decides to do with a request. */
  datatype Decision =
    | Reject(message: string)
    | Skip
    | Forward(req: Request)

  /** The usage error raised when no duration is known. */
  const MissingDurationMessage: string := "You must provide --minutes or use --session."

  /** The options of `log workout`. */
  datatype WorkoutArgs = WorkoutArgs(
    distanceKm: Option<real>, durationMin: Option<real>,
    dips: Option<int>, planks: Option<int>, pushups: Option<int>, pullups: Option<int>,
    rows: Option<int>, situps: Option<int>, squats: Option<int>, notes: Option<string>)

  /**
   * The outcome of `--session`: the measured minutes and the note typed at the
   * prompt, `None` when the user answered "n".
   */
  datatype SessionStep = NoSession | Recorded(minutes: Number, note: Option<string>)

  /** The options of `log guitar`. */
  datatype GuitarArgs = GuitarArgs(
    session: SessionStep, minutes: Option<Number>, focus: Option<GuitarFocus>, notes: Option<string>)

  /** The argument and options of `log activity`. */
  datatype ActivityArgs = ActivityArgs(
    name: string, session: SessionStep, minutes: Option<Number>, notes: Option<string>)

  /** The options of `log study`; the duration is a required option. */
  datatype StudyArgs = StudyArgs(minutes: real, topic: Option<string>, notes: Option<string>)

  /** What the user sees after a command. */
  datatype Reply = Rejected(message: string) | Skipped | Logged(event: Event) | Failed(error: StoreError)

  datatype Outcome = Outcome(store: Store, reply: Reply)

  // ---------------------------------------------------------------------------
  // Guards
  // ---------------------------------------------------------------------------

  /**
   * The minutes and notes after the optional session step: a recorded session
   * overrides `--minutes`, and a note typed at the prompt overrides `--notes`.
   */
  function AfterSession(step: SessionStep, minutes: Option<Number>, notes: Option<string>)
    : (r: (Option<Number>, Option<string>))
    ensures step.Recorded? ==> r.0 == Some(step.minutes)
    ensures step.NoSession? ==> r == (minutes, notes)
    ensures step.Recorded? && step.note.Some? ==> r.1 == step.note
    ensures !(step.Recorded? && step.note.Some?) ==> r.1 == notes
  {
    match step
    case NoSession => (minutes, notes)
    case Recorded(measured, note) => (Some(measured), if note.Some? then note else notes)
  }

  /** `log workout`: always forwards the seven counters and the notes. */
  function WorkoutCommand(a: WorkoutArgs): (d: Decision)
    ensures d.Forward? && d.req.WorkoutRequest?
    ensures d.req.notes == a.notes
  {
    Forward(WorkoutRequest(a.dips, a.planks, a.pushups, a.pullups, a.rows, a.situps, a.squats, a.notes))
  }

  /** `log guitar`: the duration check comes first, then the focus check. */
  function GuitarCommand(a: GuitarArgs): (d: Decision)
    ensures d.Reject? <==> a.session.NoSession? && a.minutes.None?
    ensures d.Reject? ==> d.message == MissingDurationMessage
    ensures d.Skip? <==> !d.Reject? && a.focus.None?
    ensures d.Forward? ==> d.req.GuitarRequest? && Some(d.req.focus) == a.focus && d.req.minutes.Some?
    ensures d.Forward? ==> (d.req.minutes, d.req.notes) == AfterSession(a.session, a.minutes, a.notes)
  {
    var (minutes, notes) := AfterSession(a.session, a.minutes, a.notes);
    if minutes.None? then Reject(MissingDurationMessage)
    else if a.focus.None? then Skip
    else Forward(GuitarRequest(a.focus.value, minutes, notes))
  }

  /** `log activity`: the duration check comes first, then the name check. */
  function ActivityCommand(a: ActivityArgs): (d: Decision)
    ensures d.Reject? <==> a.session.NoSession? && a.minutes.None?
    ensures d.Reject? ==> d.message == MissingDurationMessage
    ensures d.Skip? <==> !d.Reject? && |a.name| == 0
    ensures d.Forward? ==> d.req.ActivityRequest? && d.req.name == a.name && d.req.minutes.Some?
    ensures d.Forward? ==> (d.req.minutes, d.req.notes) == AfterSession(a.session, a.minutes, a.notes)
  {
    var (minutes, notes) := AfterSession(a.session, a.minutes, a.notes);
    if minutes.None? then Reject(MissingDurationMessage)
    else if |a.name| == 0 then Skip
    else Forward(ActivityRequest(a.name, minutes, notes))
  }

  /** `log study` only echoes its options. */
  function StudyCommand(a: StudyArgs): (d: Decision)
    ensures d.Skip?
  {
    Skip
  }

  /** Carries a guard's decision out against the store. */
  function Run(s: Store, d: Decision, today: Date, now: int): (o: Outcome)
    requires Valid(s) && ValidDate(today)
    ensures Valid(o.store)
    ensures !d.Forward? ==> o.store == s
    ensures d.Reject? ==> o.reply == Rejected(d.message)
    ensures d.Skip? ==> o.reply == Skipped
    ensures o.reply.Failed? ==> d.Forward? && MissingMinutes(d.req) && o.store == s
    ensures d.Forward? ==> (o.reply.Logged? <==> !MissingMinutes(d.req))
    ensures d.Forward? ==> (o.reply.Failed? <==> MissingMinutes(d.req))
    ensures o.reply.Logged? ==>
      (d.Forward? && AllValuesPresent(Derive(d.req, today).1)
       && Committed(s, o.store, o.reply.event, Derive(d.req, today).0, Derive(d.req, today).1, now))
  {
    match d
    case Reject(message) => Outcome(s, Rejected(message))
    case Skip => Outcome(s, Skipped)
    case Forward(req) =>
      var o := Log(s, req, today, now);
      if o.result.Success? then Outcome(o.store, Logged(o.result.value))
      else Outcome(o.store, Failed(o.result.error))
  }

  // ---------------------------------------------------------------------------
  // Properties of the guards
  // ---------------------------------------------------------------------------

  /** A forwarded request that carries its duration is committed, never refused by the store. */
  lemma ForwardedRequestsCommit(s: Store, d: Decision, today: Date, now: int)
    requires Valid(s) && ValidDate(today)
    requires d.Forward? && !MissingMinutes(d.req)
    ensures Run(s, d, today, now).reply.Logged?
  {
    LoggedAsDerived(s, d.req, today, now);
  }

  /** The guitar and activity guards never forward a request without minutes. */
  lemma GuardsForwardOnlyTimedRequests(g: GuitarArgs, a: ActivityArgs)
    ensures GuitarCommand(g).Forward? ==> !MissingMinutes(GuitarCommand(g).req)
    ensures ActivityCommand(a).Forward? ==> !MissingMinutes(ActivityCommand(a).req)
  {
  }

  /** A guitar request without minutes and without a session leaves the store as it was. */
  lemma GuitarWithoutMinutesRejected(s: Store, a: GuitarArgs, today: Date, now: int)
    requires Valid(s) && ValidDate(today)
    requires a.session.NoSession? && a.minutes.None?
    ensures Run(s, GuitarCommand(a), today, now) == Outcome(s, Rejected(MissingDurationMessage))
  {
  }

  /** A guitar request with a duration but no focus persists nothing and raises nothing. */
  lemma GuitarWithoutFocusSkipped(s: Store, a: GuitarArgs, today: Date, now: int)
    requires Valid(s) && ValidDate(today)
    requires a.focus.None?
    requires a.session.Recorded? || a.minutes.Some?
    ensures Run(s, GuitarCommand(a), today, now) == Outcome(s, Skipped)
  {
  }

  /** A recorded session always supplies the duration, whatever `--minutes` said. */
  lemma SessionSuppliesMinutes(g: GuitarArgs, a: ActivityArgs)
    requires g.session.Recorded? && a.session.Recorded?
    ensures !GuitarCommand(g).Reject? && !ActivityCommand(a).Reject?
    ensures GuitarCommand(g).Forward? ==> GuitarCommand(g).req.minutes == Some(g.session.minutes)
    ensures ActivityCommand(a).Forward? ==> ActivityCommand(a).req.minutes == Some(a.session.minutes)
  {
  }

  /**
   * For both timed guards, a note typed after a session replaces `--notes`,
   * and without one `--notes` is forwarded; without a session the forwarded
   * minutes are `--minutes`.
   */
  lemma SessionNoteReplacesNotes(g: GuitarArgs, a: ActivityArgs)
    ensures GuitarCommand(g).Forward? ==>
      && (g.session.Recorded? && g.session.note.Some? ==> GuitarCommand(g).req.notes == g.session.note)
      && (!(g.session.Recorded? && g.session.note.Some?) ==> GuitarCommand(g).req.notes == g.notes)
      && (g.session.NoSession? ==> GuitarCommand(g).req.minutes == g.minutes)
    ensures ActivityCommand(a).Forward? ==>
      && (a.session.Recorded? && a.session.note.Some? ==> ActivityCommand(a).req.notes == a.session.note)
      && (!(a.session.Recorded? && a.session.note.Some?) ==> ActivityCommand(a).req.notes == a.notes)
      && (a.session.NoSession? ==> ActivityCommand(a).req.minutes == a.minutes)
  {
  }

  /** A guitar request with a duration and a focus is logged as a guitar event. */
  lemma GuitarWithFocusLogged(s: Store, a: GuitarArgs, today: Date, now: int)
    requires Valid(s) && ValidDate(today)
    requires a.focus.Some? && (a.session.Recorded? || a.minutes.Some?)
    ensures var o := Run(s, GuitarCommand(a), today, now);
      o.reply.Logged? && o.reply.event.kind == Guitar
      && o.reply.event.id !in s.events && o.reply.event.id in o.store.events
  {
    var d := GuitarCommand(a);
    GuardsForwardOnlyTimedRequests(a, ActivityArgs([], NoSession, None, None));
    ForwardedRequestsCommit(s, d, today, now);
    LoggedAsDerived(s, d.req, today, now);
  }

  /** The duration check precedes the name check: an unnamed, untimed activity is rejected. */
  lemma ActivityWithoutMinutesRejected(s: Store, a: ActivityArgs, today: Date, now: int)
    requires Valid(s) && ValidDate(today)
    requires a.session.NoSession? && a.minutes.None?
    ensures Run(s, ActivityCommand(a), today, now) == Outcome(s, Rejected(MissingDurationMessage))
  {
  }

  /** An activity with an empty name persists nothing. */
  lemma ActivityWithoutNameSkipped(s: Store, a: ActivityArgs, today: Date, now: int)
    requires Valid(s) && ValidDate(today)
    requires |a.name| == 0
    ensures Run(s, ActivityCommand(a), today, now).store == s
    ensures !Run(s, ActivityCommand(a), today, now).reply.Logged?
  {
  }

  /** The study command never changes the store. */
  lemma StudyLeavesStore(s: Store, a: StudyArgs, today: Date, now: int)
    requires Valid(s) && ValidDate(today)
    ensures Run(s, StudyCommand(a), today, now) == Outcome(s, Skipped)
  {
  }

  /** Distance and duration are never passed on: two workouts differing only there log alike. */
  lemma WorkoutIgnoresDistanceAndDuration(a: WorkoutArgs, b: WorkoutArgs)
    requires a.(distanceKm := b.distanceKm, durationMin := b.durationMin) == b
    ensures WorkoutCommand(a) == WorkoutCommand(b)
  {
  }

  /** The workout request carries exactly the counters given on the command line. */
  lemma WorkoutForwardsCounters(a: WorkoutArgs)
    ensures var r := WorkoutCommand(a).req;
      r.dips == a.dips && r.planks == a.planks && r.pushups == a.pushups && r.pullups == a.pullups
      && r.rows == a.rows && r.situps == a.situps && r.squats == a.squats
  {
  }
}
