/** `main` and `send_daily_reports`: the start-up gates, then a `sched.scheduler`
    whose only event re-arms itself for a day later and then sends the reports.
    The scheduler is reduced to its pending event times and a clock; waiting
    moves the clock forward, and each dispatch takes a given number of seconds. */
module Scheduling {
  import opened PyStr
  import opened Parameters
  import opened ConfigReading
  import opened EmailSending

  /** `24 * 3600`: the delay of the re-armed event, in seconds. */
  const DAY: int := 86400

  function Max(a: int, b: int): int {
    if a < b then b else a
  }

  predicate Sorted(q: seq<int>) {
    forall i, j | 0 <= i < j < |q| :: q[i] <= q[j]
  }

  /** Where `sched` files a new event: after every event due no later than it, so
      that events due at the same time run in the order they were entered (every
      event here has priority 1). */
  function Insert(q: seq<int>, t: int): (r: seq<int>)
    ensures multiset(r) == multiset(q) + multiset{t}
  {
    if q == [] then [t]
    else if t < q[0] then [t] + q
    else
      assert q == [q[0]] + q[1..];
      [q[0]] + Insert(q[1..], t)
  }

  /** Filing keeps the queue in due order. */
  lemma {:induction false} InsertSorted(q: seq<int>, t: int)
    requires Sorted(q)
    ensures Sorted(Insert(q, t))
  {
    if q != [] && t >= q[0] {
      var rest := Insert(q[1..], t);
      InsertSorted(q[1..], t);
      forall j | 0 <= j < |rest|
        ensures q[0] <= rest[j]
      {
        assert rest[j] in multiset(q[1..]) + multiset{t} by {
          assert rest[j] in multiset(rest);
        }
        if rest[j] != t {
          assert rest[j] in q[1..];
        }
      }
    }
  }

  /** A `sched.scheduler(time.time, time.sleep)` holding only `send_daily_reports` events. */
  class Scheduler {
    var queue: seq<int>
    var clock: int

    constructor (clock: int)
      ensures queue == [] && this.clock == clock
    {
      queue := [];
      this.clock := clock;
    }

    /** `enterabs(time, 1, send_daily_reports, ...)`. */
    method EnterAbs(time: int)
      modifies this
      ensures queue == Insert(old(queue), time) && clock == old(clock)
    {
      queue := Insert(queue, time);
    }

    /** `enter(delay, 1, send_daily_reports, ...)`: due `delay` seconds after the clock now. */
    method Enter(delay: int)
      modifies this
      ensures queue == Insert(old(queue), old(clock) + delay) && clock == old(clock)
    {
      EnterAbs(clock + delay);
    }
  }

  /** `send_daily_reports`: the next event is entered first, a day after the clock
      at firing, and only then are the reports sent, so it is pending whatever
      the sending does. */
  method SendDailyReports(scheduler: Scheduler, emails: EmailSender, files: nat -> Files, replies: nat -> Session)
    returns (result: Outcome<seq<Delivery>>)
    modifies scheduler
    ensures scheduler.queue == Insert(old(scheduler.queue), old(scheduler.clock) + DAY)
    ensures scheduler.clock == old(scheduler.clock)
    ensures result == Dispatch(emails.parameters.items, files, replies)
  {
    scheduler.Enter(DAY);
    result := emails.SendEmail(files, replies);
  }

  /** What running the scheduler produced: the clock at each firing, each firing's
      deliveries, and the exception that ended the run, if any. */
  datatype RunResult = RunResult(fired: seq<int>, sent: seq<seq<Delivery>>, crash: Option<Exception>)

  /** `scheduler.run()` for as many firings as `durations` has entries, starting with one
      event due at `due` and the clock at `clock`: each firing waits for its event,
      re-arms at the clock plus a day, dispatches with the given outcome and then
      takes the given number of seconds; an exception out of the dispatch ends the run. */
  function Rounds(due: int, clock: int, durations: seq<nat>, outcomes: seq<Outcome<seq<Delivery>>>): (r: RunResult)
    requires |outcomes| == |durations|
    ensures |r.sent| <= |r.fired| <= |durations|
    ensures r.crash.None? <==> |r.sent| == |durations|
    decreases |durations|
  {
    if durations == [] then RunResult([], [], None)
    else
      var fire := Max(due, clock);
      match outcomes[0]
      case Raised(e) => RunResult([fire], [], Some(e))
      case Returned(d) =>
        var rest := Rounds(fire + DAY, fire + durations[0], durations[1..], outcomes[1..]);
        RunResult([fire] + rest.fired, [d] + rest.sent, rest.crash)
  }

  /** A run fires once per entry until a dispatch raises, and stops right there,
      recording the deliveries of every firing before. */
  lemma {:induction false} RoundsShape(due: int, clock: int, durations: seq<nat>, outcomes: seq<Outcome<seq<Delivery>>>)
    requires |outcomes| == |durations|
    ensures var r := Rounds(due, clock, durations, outcomes);
      && |r.fired| <= |durations|
      && (r.crash.None? <==> forall k | 0 <= k < |outcomes| :: outcomes[k].Returned?)
      && (r.crash.None? ==> |r.fired| == |durations| && |r.sent| == |r.fired|)
      && (r.crash.Some? ==> |r.fired| >= 1 && |r.sent| == |r.fired| - 1 && outcomes[|r.sent|] == Raised(r.crash.value))
      && (forall k | 0 <= k < |r.sent| :: outcomes[k] == Returned(r.sent[k]))
    decreases |durations|
  {
    if durations != [] && outcomes[0].Returned? {
      var fire := Max(due, clock);
      RoundsShape(fire + DAY, fire + durations[0], durations[1..], outcomes[1..]);
      assert forall k | 1 <= k < |durations| :: outcomes[1..][k - 1] == outcomes[k];
    }
  }

  /** The first firing waits for the event, and each later firing is due a day
      after the one before, or later if that one's dispatch ran longer than a day. */
  lemma {:induction false} RoundsTiming(due: int, clock: int, durations: seq<nat>, outcomes: seq<Outcome<seq<Delivery>>>)
    requires |outcomes| == |durations|
    ensures var r := Rounds(due, clock, durations, outcomes);
      && |r.fired| <= |durations|
      && (durations != [] ==> r.fired[0] == Max(due, clock))
      && (forall k | 0 <= k < |r.fired| - 1 :: r.fired[k + 1] == r.fired[k] + Max(DAY, durations[k]))
    decreases |durations|
  {
    if durations != [] && outcomes[0].Returned? {
      var fire := Max(due, clock);
      RoundsTiming(fire + DAY, fire + durations[0], durations[1..], outcomes[1..]);
      assert forall k | 1 <= k < |durations| :: durations[1..][k - 1] == durations[k];
    }
  }

  /** What a firing meets: for its i-th client, the reports as they can be opened
      then (`send_email` opens them afresh for every client) and how the i-th SMTP
      conversation goes. */
  datatype Day = Day(files: nat -> Files, replies: nat -> Session)

  /** What `send_email` gives at each firing: the dictionary is the same each
      time, the reports and the conversations are those of that day. */
  function Outcomes(m: Params, days: seq<Day>): (r: seq<Outcome<seq<Delivery>>>)
    ensures |r| == |days| && forall k | 0 <= k < |days| :: r[k] == Dispatch(m, days[k].files, days[k].replies)
  {
    seq(|days|, k requires 0 <= k < |days| => Dispatch(m, days[k].files, days[k].replies))
  }

  /** `send_email` raises for every firing or for none, so a run either ends at its
      first firing or runs all of them, one dispatch each. */
  lemma CrashesFirstOrNever(m: Params, due: int, clock: int, durations: seq<nat>, days: seq<Day>)
    requires |days| == |durations|
    ensures var r := Rounds(due, clock, durations, Outcomes(m, days));
      && (r.crash.Some? ==> |r.fired| == 1 && r.sent == [] && r.crash == Some(Dispatch(m, days[0].files, days[0].replies).error))
      && (r.crash.None? ==> |r.sent| == |durations| && forall k | 0 <= k < |durations| :: r.sent[k] == Dispatch(m, days[k].files, days[k].replies).value)
  {
    var outcomes := Outcomes(m, days);
    var r := Rounds(due, clock, durations, outcomes);
    RoundsShape(due, clock, durations, outcomes);
    if r.crash.Some? {
      assert outcomes[|r.sent|].Raised?;
      assert Dispatch(m, days[|r.sent|].files, days[|r.sent|].replies).Raised?;
      assert outcomes[0].Raised?;
    } else {
      forall k | 0 <= k < |durations|
        ensures r.sent[k] == Dispatch(m, days[k].files, days[k].replies).value
      {
        assert outcomes[k] == Returned(r.sent[k]);
      }
    }
  }

  /** Firings are at least a day apart, and exactly a day apart after a dispatch
      that takes a day or less: the next event counts from the clock at re-arm,
      so a late firing delays every later one. */
  lemma FiringsDrift(due: int, clock: int, durations: seq<nat>, outcomes: seq<Outcome<seq<Delivery>>>, k: nat)
    requires |outcomes| == |durations|
    requires k + 1 < |durations| && k + 1 < |Rounds(due, clock, durations, outcomes).fired|
    ensures var f := Rounds(due, clock, durations, outcomes).fired;
      && f[k + 1] >= f[k] + DAY
      && (f[k + 1] == f[k] + DAY <==> durations[k] <= DAY)
  {
    RoundsTiming(due, clock, durations, outcomes);
  }

  /** When every dispatch takes at most a day and the first event is not overdue,
      the k-th firing is exactly k days after the configured time. */
  lemma {:induction false} FiringsOnTime(due: int, clock: int, durations: seq<nat>, outcomes: seq<Outcome<seq<Delivery>>>, k: nat)
    requires |outcomes| == |durations| && clock <= due
    requires forall j | 0 <= j < |durations| :: durations[j] <= DAY
    requires k < |Rounds(due, clock, durations, outcomes).fired|
    ensures Rounds(due, clock, durations, outcomes).fired[k] == due + k * DAY
  {
    var f := Rounds(due, clock, durations, outcomes).fired;
    RoundsTiming(due, clock, durations, outcomes);
    if k > 0 {
      FiringsOnTime(due, clock, durations, outcomes, k - 1);
      assert f[k] == f[k - 1] + Max(DAY, durations[k - 1]);
    }
  }

  /** `scheduler.run()`, bounded by the number of firings given. The single event
      is popped, waited for, and replaced by the re-armed one before the dispatch,
      so exactly one event is pending between firings (and `Fire` shows it is due
      a day after the last firing, even one whose dispatch raised). */
  method Run(scheduler: Scheduler, emails: EmailSender, durations: seq<nat>, days: seq<Day>)
    returns (r: RunResult)
    requires |days| == |durations| && |scheduler.queue| == 1
    modifies scheduler
    ensures r == Rounds(old(scheduler.queue[0]), old(scheduler.clock), durations, Outcomes(emails.parameters.items, days))
    ensures |scheduler.queue| == 1
  {
    ghost var outcomes := Outcomes(emails.parameters.items, days);
    ghost var total := Rounds(scheduler.queue[0], scheduler.clock, durations, outcomes);
    r := RunResult([], [], None);
    var i := 0;
    while i < |durations|
      invariant 0 <= i <= |durations| && |scheduler.queue| == 1
      invariant outcomes == Outcomes(emails.parameters.items, days)
      invariant r.crash.None? && |r.fired| == i
      invariant total == Then(r, Rounds(scheduler.queue[0], scheduler.clock, durations[i..], outcomes[i..]))
    {
      r := Cycle(scheduler, emails, durations, days, outcomes, total, r, i);
      if r.crash.Some? {
        return;
      }
      i := i + 1;
    }
    assert r.fired + [] == r.fired && r.sent + [] == r.sent;
  }

  /** One pass of the run loop: a firing, then either the end of the run with the
      exception the dispatch raised, or the clock advanced by the dispatch's duration
      with the rest of the run still to come. */
  method Cycle(scheduler: Scheduler, emails: EmailSender, durations: seq<nat>, days: seq<Day>,
               ghost outcomes: seq<Outcome<seq<Delivery>>>, ghost total: RunResult, r: RunResult, i: nat)
    returns (r': RunResult)
    requires |outcomes| == |durations| == |days| && i < |durations| && |scheduler.queue| == 1
    requires outcomes[i] == Dispatch(emails.parameters.items, days[i].files, days[i].replies)
    requires r.crash.None? && |r.fired| == i
    requires total == Then(r, Rounds(scheduler.queue[0], scheduler.clock, durations[i..], outcomes[i..]))
    modifies scheduler
    ensures |scheduler.queue| == 1 && |r'.fired| == i + 1
    ensures r'.crash.Some? ==> total == r'
    ensures r'.crash.None? ==> total == Then(r', Rounds(scheduler.queue[0], scheduler.clock, durations[i + 1..], outcomes[i + 1..]))
  {
    ghost var due, now := scheduler.queue[0], scheduler.clock;
    var fire, result := Fire(scheduler, emails, days[i]);
    if result.Raised? {
      RunStops(total, r, due, now, durations, outcomes, i);
      return RunResult(r.fired + [fire], r.sent, Some(result.error));
    }
    RunContinues(total, r, due, now, durations, outcomes, i);
    r' := RunResult(r.fired + [fire], r.sent + [result.value], None);
    scheduler.clock := scheduler.clock + durations[i];
  }

  /** One pass of `sched.run`'s loop: wait until the event is due, pop it, and
      run `send_daily_reports`. */
  method Fire(scheduler: Scheduler, emails: EmailSender, day: Day)
    returns (fire: int, result: Outcome<seq<Delivery>>)
    requires |scheduler.queue| == 1
    modifies scheduler
    ensures fire == Max(old(scheduler.queue[0]), old(scheduler.clock))
    ensures scheduler.queue == [fire + DAY] && scheduler.clock == fire
    ensures result == Dispatch(emails.parameters.items, day.files, day.replies)
  {
    if scheduler.queue[0] > scheduler.clock {
      scheduler.clock := scheduler.queue[0];
    }
    scheduler.queue := scheduler.queue[1..];
    assert scheduler.queue == [];
    fire := scheduler.clock;
    result := SendDailyReports(scheduler, emails, day.files, day.replies);
  }

  /** A firing whose dispatch returns is followed by the rest of the run, from
      the re-armed event and the clock after the dispatch. */
  lemma RoundsStep(due: int, clock: int, durations: seq<nat>, outcomes: seq<Outcome<seq<Delivery>>>, i: nat, d: seq<Delivery>)
    requires |outcomes| == |durations| && i < |durations| && outcomes[i] == Returned(d)
    ensures var fire := Max(due, clock);
      var later := Rounds(fire + DAY, fire + durations[i], durations[i + 1..], outcomes[i + 1..]);
      Rounds(due, clock, durations[i..], outcomes[i..]) == RunResult([fire] + later.fired, [d] + later.sent, later.crash)
  {
    assert durations[i..][1..] == durations[i + 1..] && outcomes[i..][1..] == outcomes[i + 1..];
    assert durations[i..][0] == durations[i] && outcomes[i..][0] == outcomes[i];
  }

  /** A firing whose dispatch raises ends the run. */
  lemma RoundsStop(due: int, clock: int, durations: seq<nat>, outcomes: seq<Outcome<seq<Delivery>>>, i: nat, e: Exception)
    requires |outcomes| == |durations| && i < |durations| && outcomes[i] == Raised(e)
    ensures Rounds(due, clock, durations[i..], outcomes[i..]) == RunResult([Max(due, clock)], [], Some(e))
  {
    assert outcomes[i..][0] == outcomes[i];
  }

  /** Taking one firing off the rest of the run and adding it to the run so far. */
  lemma ThenStep(r: RunResult, fire: int, d: seq<Delivery>, later: RunResult)
    ensures Then(r, RunResult([fire] + later.fired, [d] + later.sent, later.crash))
         == Then(RunResult(r.fired + [fire], r.sent + [d], None), later)
  {
    assert r.fired + ([fire] + later.fired) == r.fired + [fire] + later.fired;
    assert r.sent + ([d] + later.sent) == r.sent + [d] + later.sent;
  }

  /** The loop invariant of `Run` survives a firing whose dispatch returns. */
  lemma RunContinues(total: RunResult, r: RunResult, due: int, clock: int, durations: seq<nat>, outcomes: seq<Outcome<seq<Delivery>>>, i: nat)
    requires |outcomes| == |durations| && i < |durations| && outcomes[i].Returned?
    requires total == Then(r, Rounds(due, clock, durations[i..], outcomes[i..]))
    ensures var fire := Max(due, clock);
      total == Then(RunResult(r.fired + [fire], r.sent + [outcomes[i].value], None),
                    Rounds(fire + DAY, fire + durations[i], durations[i + 1..], outcomes[i + 1..]))
  {
    var fire := Max(due, clock);
    RoundsStep(due, clock, durations, outcomes, i, outcomes[i].value);
    ThenStep(r, fire, outcomes[i].value, Rounds(fire + DAY, fire + durations[i], durations[i + 1..], outcomes[i + 1..]));
  }

  /** A firing whose dispatch raises completes the run. */
  lemma RunStops(total: RunResult, r: RunResult, due: int, clock: int, durations: seq<nat>, outcomes: seq<Outcome<seq<Delivery>>>, i: nat)
    requires |outcomes| == |durations| && i < |durations| && outcomes[i].Raised?
    requires total == Then(r, Rounds(due, clock, durations[i..], outcomes[i..]))
    ensures total == RunResult(r.fired + [Max(due, clock)], r.sent, Some(outcomes[i].error))
  {
    RoundsStop(due, clock, durations, outcomes, i, outcomes[i].error);
    assert r.sent + [] == r.sent;
  }

  /** A run so far followed by the rest of the run. */
  function Then(a: RunResult, b: RunResult): RunResult {
    RunResult(a.fired + b.fired, a.sent + b.sent, b.crash)
  }

  /** How `main` ends when nothing escapes before the scheduler starts: one of its
      two messages, or the scheduler's run. A run whose `crash` is set ended with
      an exception from `send_email`, which escapes `scheduler.run()` and `main`. */
  datatype Ending = ConfigurationIssues | AuthenticationIssues | Ran(run: RunResult)

  /** `main`, from the configuration file, the environment, the SMTP conversation of
      `test_login`, the clock when the scheduler starts, and per firing the reports as
      they can be opened that day, how long the dispatch takes and how each of its
      conversations goes. */
  function Main(file: ConfigFile, env: Environment, login: Session, start: int, durations: seq<nat>,
                days: seq<Day>): (r: Outcome<Ending>)
    requires |days| == |durations|
    ensures var read := Read(map[], file, env);
      && (r == Returned(ConfigurationIssues) <==> !(read.outcome.Validated? && read.outcome.verdict.Escaped?) && read.params == map[])
      && (r.Returned? && !r.value.ConfigurationIssues? ==> Login(read.params, login).attempted || r.value.AuthenticationIssues?)
      && (r.Returned? && r.value.Ran? ==> Login(read.params, login).outcome == Returned(true))
      && (r == Returned(AuthenticationIssues) <==>
            !(read.outcome.Validated? && read.outcome.verdict.Escaped?) && read.params != map[]
            && Login(read.params, login).outcome == Returned(false))
      // what escapes validation or the login escapes `main`
      && (read.outcome.Validated? && read.outcome.verdict.Escaped? ==> r == Raised(read.outcome.verdict.error))
      && (!(read.outcome.Validated? && read.outcome.verdict.Escaped?) && read.params != map[] && Login(read.params, login).outcome.Raised?
          ==> r == Raised(Login(read.params, login).outcome.error))
      // a successful login starts the scheduler on the dictionary the login leaves
      && (!(read.outcome.Validated? && read.outcome.verdict.Escaped?) && read.params != map[] && Login(read.params, login).outcome == Returned(true)
          ==> r == Started(Login(read.params, login).params, env, start, durations, days))
  {
    var read := Read(map[], file, env);
    if read.outcome.Validated? && read.outcome.verdict.Escaped? then Raised(read.outcome.verdict.error)
    else if read.params == map[] then Returned(ConfigurationIssues)
    else
      var login := Login(read.params, login);
      match login.outcome
      case Raised(e) => Raised(e)
      case Returned(false) => Returned(AuthenticationIssues)
      case Returned(true) => Started(login.params, env, start, durations, days)
  }

  /** The end of `main` once the login succeeded: the configured time is parsed,
      entered as the first event, and the scheduler runs from there. */
  function Started(m: Params, env: Environment, start: int, durations: seq<nat>,
                   days: seq<Day>): (r: Outcome<Ending>)
    requires |days| == |durations|
    ensures r.Returned? <==> SCHEDULE in m && m[SCHEDULE].Str? && env.parse(m[SCHEDULE].s).Some?
    ensures r.Returned? ==> r.value.Ran?
    ensures r.Returned? ==>
      r.value.run == Rounds(env.parse(m[SCHEDULE].s).value, start, durations, Outcomes(m, days))
    ensures r.Raised? ==> r.error in {KeyError(SCHEDULE), TypeError(SCHEDULE), ValueError(SCHEDULE)}
  {
    match Get(m, SCHEDULE)
    case None => Raised(KeyError(SCHEDULE))
    case Some(v) =>
      if !v.Str? then Raised(TypeError(SCHEDULE))
      else match env.parse(v.s)
        case None => Raised(ValueError(SCHEDULE))
        case Some(t) => Returned(Ran(Rounds(t, start, durations, Outcomes(m, days))))
  }

  /** `main`: read and validate, stop on an empty dictionary, test the login, then
      enter the first event at the configured time and run the scheduler. */
  method Launch(file: ConfigFile, env: Environment, login: Session, start: int, durations: seq<nat>,
                days: seq<Day>) returns (r: Outcome<Ending>)
    requires |days| == |durations|
    ensures r == Main(file, env, login, start, durations, days)
  {
    var reader := new ConfigReader();
    var outcome, warnings := reader.ReadConfigFile(file, env);
    if outcome.Validated? && outcome.verdict.Escaped? {
      return Raised(outcome.verdict.error);
    }
    if reader.parameters.items == map[] {
      return Returned(ConfigurationIssues);
    }
    var emails := new EmailSender(reader.parameters);
    var success, attempted := emails.TestLogin(login);
    if success.Raised? {
      return Raised(success.error);
    }
    if !success.value {
      return Returned(AuthenticationIssues);
    }
    r := StartScheduler(emails, env, start, durations, days);
  }

  /** The scheduler part of `main`. */
  method StartScheduler(emails: EmailSender, env: Environment, start: int, durations: seq<nat>,
                        days: seq<Day>) returns (r: Outcome<Ending>)
    requires |days| == |durations|
    ensures r == Started(emails.parameters.items, env, start, durations, days)
  {
    var scheduler := new Scheduler(start);
    var schedule := Get(emails.parameters.items, SCHEDULE);
    if schedule.None? {
      return Raised(KeyError(SCHEDULE));
    }
    if !schedule.value.Str? {
      return Raised(TypeError(SCHEDULE));
    }
    var time := env.parse(schedule.value.s);
    if time.None? {
      return Raised(ValueError(SCHEDULE));
    }
    scheduler.EnterAbs(time.value);
    var run := Run(scheduler, emails, durations, days);
    return Returned(Ran(run));
  }

  /** With a configuration that validates and a login that succeeds, the scheduler
      runs, and its first firing is never before the configured time (nor before
      the time at which validation ran), and is exactly at it when the scheduler
      starts no later. */
  lemma FirstFiringAtSchedule(file: ConfigFile, env: Environment, login: Session, start: int, durations: seq<nat>,
                              days: seq<Day>)
    requires |days| == |durations| && durations != []
    requires Read(map[], file, env).outcome == Validated(Accepted)
    requires login.connects && login.authenticates && PASSWORD in Read(map[], file, env).params
    ensures var p := Read(map[], file, env).params;
      && SCHEDULE in p && p[SCHEDULE].Str? && env.parse(p[SCHEDULE].s).Some?
      && var t := env.parse(p[SCHEDULE].s).value;
      && Main(file, env, login, start, durations, days).Returned?
      && Main(file, env, login, start, durations, days).value.Ran?
      && var f := Main(file, env, login, start, durations, days).value.run.fired;
      && f != [] && env.now <= t <= f[0]
      && (start <= t ==> f[0] == t)
  {
    var m := Load(map[], file.lines).params;
    var p := Read(map[], file, env).params;
    LoginAfterValidation(m, env, login);
    AcceptedLists(m, env);
    var t := env.parse(p[SCHEDULE].s).value;
    RoundsShape(t, start, durations, Outcomes(p, days));
    RoundsTiming(t, start, durations, Outcomes(p, days));
  }

  /** A malformed line after `key=value` with a key other than the sender's address
      does not stop `main` with its configuration message: the dictionary is not
      empty, so `test_login` runs and its lookup of the sender raises `KeyError`. */
  lemma MalformedLineEscapesAtLogin(key: string, value: string, bad: string, env: Environment, login: Session, start: int,
                                    durations: seq<nat>, days: seq<Day>)
    requires key != [] && key[0] != '#' && Trimmed(key) && Trimmed(value) && key != USERNAME
    requires '=' !in key && '=' !in value
    requires bad != [] && bad[0] != '#' && Trimmed(bad) && '=' !in bad
    requires |days| == |durations|
    ensures Main(Lines([key + "=" + value, bad]), env, login, start, durations, days) == Raised(KeyError(USERNAME))
  {
    MalformedLineKeepsEarlierKeys(key, value, bad, env);
    assert key in map[key := Str(value)];
  }
}
