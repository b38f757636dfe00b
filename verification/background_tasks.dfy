/** `BackgroundTaskManager`: the running flag and the two periodic loops, the
    daily and hourly sweeps, on-demand cleanup, task restarts, the health
    report and the statistics summary. The services it calls are parameters:
    each sweep is a function from its age horizon to the count it reports, or
    to the text of the exception it raised. */
module BackgroundTasks {
  import opened Wrappers
  import opened DateParser
  import OllamaClient

  /** A `tasks.loop`: never started, running, or cancelled. */
  datatype LoopState = NotStarted | Running | Cancelled

  /** `_cleanup_stats` */
  datatype CleanupStats = CleanupStats(lastRun: Option<DateTime>, sessionsCleaned: int, dataCleaned: int, modelsCleaned: int)

  datatype Manager = Manager(tasksRunning: bool, cleanupLoop: LoopState, monitorLoop: LoopState, stats: CleanupStats)

  /** A service call that reports a count: its horizon in, the count or the
      exception text out. */
  type Sweep = int -> Result<int>

  /** `__init__` */
  function NewManager(): (m: Manager)
    ensures !m.tasksRunning && m.stats == CleanupStats(None, 0, 0, 0)
  {
    Manager(false, NotStarted, NotStarted, CleanupStats(None, 0, 0, 0))
  }

  // ---------------------------------------------------------------------------
  // Starting and stopping
  // ---------------------------------------------------------------------------

  /** `start_background_tasks`: starts both loops only when the flag is off.
      A loop's `start()` raises when its previous run has not finished being
      cancelled; `cleanupStartFails` and `monitorStartFails` say which call
      raised. Nothing catches the error, so the steps after it never happen:
      the flag stays off and a later call tries again. */
  function StartBackgroundTasks(m: Manager, cleanupStartFails: bool, monitorStartFails: bool): (r: Manager)
    ensures r.tasksRunning <==> m.tasksRunning || (!cleanupStartFails && !monitorStartFails)
    ensures !m.tasksRunning && !cleanupStartFails && !monitorStartFails ==>
      r == m.(tasksRunning := true, cleanupLoop := Running, monitorLoop := Running)
    ensures !m.tasksRunning && cleanupStartFails ==> r == m
    ensures !m.tasksRunning && !cleanupStartFails && monitorStartFails ==> r == m.(cleanupLoop := Running)
    ensures m.tasksRunning ==> r == m
  {
    if m.tasksRunning then m
    else if cleanupStartFails then m
    else if monitorStartFails then m.(cleanupLoop := Running)
    else m.(tasksRunning := true, cleanupLoop := Running, monitorLoop := Running)
  }

  /** `stop_background_tasks`: cancels both loops only when the flag is on. */
  function StopBackgroundTasks(m: Manager): (r: Manager)
    ensures !r.tasksRunning
    ensures m.tasksRunning ==> r == m.(tasksRunning := false, cleanupLoop := Cancelled, monitorLoop := Cancelled)
    ensures !m.tasksRunning ==> r == m
  {
    if m.tasksRunning then m.(tasksRunning := false, cleanupLoop := Cancelled, monitorLoop := Cancelled) else m
  }

  /** Once a start has gone through, starting again changes nothing whatever
      the loops would do; stopping twice is stopping once; and neither
      touches the statistics. */
  lemma StartStopIdempotent(m: Manager, cf: bool, mf: bool, cf2: bool, mf2: bool)
    ensures var s := StartBackgroundTasks(m, cf, mf);
      s.tasksRunning ==> StartBackgroundTasks(s, cf2, mf2) == s
    ensures StopBackgroundTasks(StopBackgroundTasks(m)) == StopBackgroundTasks(m)
    ensures StartBackgroundTasks(m, cf, mf).stats == m.stats && StopBackgroundTasks(m).stats == m.stats
  {
  }

  /** A stop followed by a start restarts both loops when neither `start()`
      raises; when one raises the flag stays off and the monitor loop stays
      as the stop left it. */
  lemma StopThenStartRuns(m: Manager, cf: bool, mf: bool)
    ensures var r := StartBackgroundTasks(StopBackgroundTasks(m), cf, mf);
      (r.tasksRunning <==> !cf && !mf) &&
      (!cf && !mf ==> r.cleanupLoop == Running && r.monitorLoop == Running) &&
      (cf || mf ==> r.monitorLoop == StopBackgroundTasks(m).monitorLoop)
  {
  }

  // ---------------------------------------------------------------------------
  // The periodic sweeps
  // ---------------------------------------------------------------------------

  const DataHorizonDays := 30
  const ModelHorizonDays := 7
  const SessionHorizonHours := 24

  /** One run of the daily `cleanup_task`. The statistics are updated only
      when both sweeps return; an exception leaves them as they were. */
  function DailyCleanup(m: Manager, now: DateTime, cleanupData: Sweep, cleanupModels: Sweep): (r: Manager)
    ensures cleanupData(DataHorizonDays).Ok? && cleanupModels(ModelHorizonDays).Ok? ==>
      r == m.(stats := m.stats.(lastRun := Some(now),
                                dataCleaned := cleanupData(DataHorizonDays).value,
                                modelsCleaned := cleanupModels(ModelHorizonDays).value))
    ensures cleanupData(DataHorizonDays).Err? || cleanupModels(ModelHorizonDays).Err? ==> r == m
  {
    match cleanupData(DataHorizonDays)
    case Err(_) => m
    case Ok(data) =>
      match cleanupModels(ModelHorizonDays)
      case Err(_) => m
      case Ok(models) => m.(stats := m.stats.(lastRun := Some(now), dataCleaned := data, modelsCleaned := models))
  }

  /** One run of the hourly `session_monitor_task`: the count is recorded
      only when it is positive. */
  function SessionMonitor(m: Manager, cleanupSessions: Sweep): (r: Manager)
    ensures cleanupSessions(SessionHorizonHours).Ok? && cleanupSessions(SessionHorizonHours).value > 0 ==>
      r == m.(stats := m.stats.(sessionsCleaned := cleanupSessions(SessionHorizonHours).value))
    ensures cleanupSessions(SessionHorizonHours).Err? || cleanupSessions(SessionHorizonHours).value <= 0 ==> r == m
  {
    match cleanupSessions(SessionHorizonHours)
    case Ok(n) => if n > 0 then m.(stats := m.stats.(sessionsCleaned := n)) else m
    case Err(_) => m
  }

  /** The model sweep handed to the manager when it is the client's
      `cleanup_old_models` over the models the server lists. */
  function ModelSweep(c: OllamaClient.ClientState, models: seq<string>, now: DateTime, deletable: set<string>): Sweep
    requires IsValidDateTime(now)
  {
    days => Ok(OllamaClient.CleanupOldModels(c, models, now, days, deletable).1)
  }

  /** Whatever the server lists, every daily run records zero models
      cleaned: the client's age test never selects a model. */
  lemma DailyCleanupRecordsNoModels(m: Manager, now: DateTime, cleanupData: Sweep,
                                   c: OllamaClient.ClientState, models: seq<string>, deletable: set<string>)
    requires IsValidDateTime(now) && cleanupData(DataHorizonDays).Ok?
    ensures DailyCleanup(m, now, cleanupData, ModelSweep(c, models, now, deletable)).stats.modelsCleaned == 0
  {
    OllamaClient.CleanupNeverDeletes(c, models, now, ModelHorizonDays, deletable);
  }

  // ---------------------------------------------------------------------------
  // manual_cleanup
  // ---------------------------------------------------------------------------

  /** The dictionary `manual_cleanup` returns; an absent key is `None`. */
  datatype CleanupReport = CleanupReport(dataCleaned: Option<int>, sessionsCleaned: Option<int>, modelsCleaned: Option<int>,
                                         success: bool, error: Option<string>, timestamp: DateTime)

  /** `cleanup_type in ["all", step]` */
  predicate Selects(cleanupType: string, step: string) {
    cleanupType == "all" || cleanupType == step
  }

  /** Runs one step if selected: `None` when skipped, otherwise its outcome. */
  function Step(cleanupType: string, step: string, sweep: Sweep, horizon: int): (o: Option<Result<int>>)
    ensures o.Some? <==> Selects(cleanupType, step)
    ensures o.Some? ==> o.value == sweep(horizon)
  {
    if Selects(cleanupType, step) then Some(sweep(horizon)) else None
  }

  /** The count a step contributes to the report. */
  function Recorded(o: Option<Result<int>>): Option<int> {
    if o.Some? && o.value.Ok? then Some(o.value.value) else None
  }

  predicate Raised(o: Option<Result<int>>) {
    o.Some? && o.value.Err?
  }

  /** `manual_cleanup`. The steps run in the order data, sessions, models;
      the first exception ends the run and keeps the counts already
      recorded. */
  function ManualCleanup(cleanupType: string, now: DateTime, cleanupData: Sweep, cleanupSessions: Sweep,
                         cleanupModels: Sweep): (r: CleanupReport)
    ensures r.timestamp == now
    ensures r.success <==> r.error.None?
  {
    var d := Step(cleanupType, "data", cleanupData, DataHorizonDays);
    if Raised(d) then CleanupReport(None, None, None, false, Some(d.value.error), now)
    else
      var s := Step(cleanupType, "sessions", cleanupSessions, SessionHorizonHours);
      if Raised(s) then CleanupReport(Recorded(d), None, None, false, Some(s.value.error), now)
      else
        var mo := Step(cleanupType, "models", cleanupModels, ModelHorizonDays);
        if Raised(mo) then CleanupReport(Recorded(d), Recorded(s), None, false, Some(mo.value.error), now)
        else CleanupReport(Recorded(d), Recorded(s), Recorded(mo), true, None, now)
  }

  /** Which counts appear: a step's count is reported exactly when the type
      selects it, it returned, and no earlier step raised; the run succeeds
      exactly when no selected step raised. */
  lemma ManualCleanupDispatch(cleanupType: string, now: DateTime, cleanupData: Sweep, cleanupSessions: Sweep, cleanupModels: Sweep)
    ensures var r := ManualCleanup(cleanupType, now, cleanupData, cleanupSessions, cleanupModels);
      var dataFails := Selects(cleanupType, "data") && cleanupData(DataHorizonDays).Err?;
      var sessionsFail := Selects(cleanupType, "sessions") && cleanupSessions(SessionHorizonHours).Err?;
      var modelsFail := Selects(cleanupType, "models") && cleanupModels(ModelHorizonDays).Err?;
      && (r.dataCleaned.Some? <==> Selects(cleanupType, "data") && !dataFails)
      && (r.sessionsCleaned.Some? <==> Selects(cleanupType, "sessions") && !dataFails && !sessionsFail)
      && (r.modelsCleaned.Some? <==> Selects(cleanupType, "models") && !dataFails && !sessionsFail && !modelsFail)
      && (r.dataCleaned.Some? ==> r.dataCleaned.value == cleanupData(DataHorizonDays).value)
      && (r.sessionsCleaned.Some? ==> r.sessionsCleaned.value == cleanupSessions(SessionHorizonHours).value)
      && (r.modelsCleaned.Some? ==> r.modelsCleaned.value == cleanupModels(ModelHorizonDays).value)
      && (r.success <==> !dataFails && !sessionsFail && !modelsFail)
  {
  }

  /** A type that names no step runs nothing and still reports success. */
  lemma UnknownTypeRunsNothing(cleanupType: string, now: DateTime, cleanupData: Sweep, cleanupSessions: Sweep, cleanupModels: Sweep)
    requires cleanupType !in {"all", "data", "sessions", "models"}
    ensures ManualCleanup(cleanupType, now, cleanupData, cleanupSessions, cleanupModels)
         == CleanupReport(None, None, None, true, None, now)
  {
  }

  // ---------------------------------------------------------------------------
  // restart_task
  // ---------------------------------------------------------------------------

  /** `restart_task`: cancels and restarts the named loop. `startFails` says
      whether the loop's `start()` raised (it does when the cancellation has
      not completed), which leaves the loop cancelled. */
  function RestartTask(m: Manager, taskName: string, startFails: bool): (r: (Manager, bool))
    ensures r.1 <==> (taskName == "cleanup" || taskName == "session_monitor") && !startFails
    ensures taskName == "cleanup" ==> r.0 == m.(cleanupLoop := if startFails then Cancelled else Running)
    ensures taskName == "session_monitor" ==> r.0 == m.(monitorLoop := if startFails then Cancelled else Running)
    ensures taskName != "cleanup" && taskName != "session_monitor" ==> r.0 == m
    ensures r.0.tasksRunning == m.tasksRunning && r.0.stats == m.stats
  {
    if taskName == "cleanup" then (m.(cleanupLoop := if startFails then Cancelled else Running), !startFails)
    else if taskName == "session_monitor" then (m.(monitorLoop := if startFails then Cancelled else Running), !startFails)
    else (m, false)
  }

  // ---------------------------------------------------------------------------
  // health_check
  // ---------------------------------------------------------------------------

  /** One entry of `health_status["services"]`. */
  datatype ServiceHealth = ServiceHealth(status: string, error: Option<string>, cleanupRunning: bool, monitorRunning: bool)

  datatype HealthReport = HealthReport(timestamp: DateTime, overallStatus: string,
                                       services: seq<(string, ServiceHealth)>, unhealthyServices: Option<seq<string>>)

  /** `not loop.is_being_cancelled()`, approximated: a loop once cancelled
      stays cancelled, since the model has no scheduler to finish it. */
  predicate NotCancelled(l: LoopState) {
    l != Cancelled
  }

  /** The names whose status is "unhealthy", in order. */
  function UnhealthyNames(services: seq<(string, ServiceHealth)>): (names: seq<string>)
    ensures |names| <= |services|
    ensures forall n :: n in names <==> exists i :: 0 <= i < |services| && services[i].0 == n && services[i].1.status == "unhealthy"
  {
    if |services| == 0 then []
    else
      var head := if services[0].1.status == "unhealthy" then [services[0].0] else [];
      var rest := UnhealthyNames(services[1..]);
      assert forall i :: 0 < i < |services| ==> services[i] == services[1..][i - 1];
      head + rest
  }

  /** No name is listed exactly when no service is unhealthy. */
  lemma NoUnhealthyNames(services: seq<(string, ServiceHealth)>)
    ensures UnhealthyNames(services) == [] <==> forall i :: 0 <= i < |services| ==> services[i].1.status != "unhealthy"
  {
    var names := UnhealthyNames(services);
    assert names != [] ==> names[0] in names;
    forall i | 0 <= i < |services| && services[i].1.status == "unhealthy"
      ensures services[i].0 in names
    {
    }
  }

  /** The Ollama entry, from `check_ollama_availability`'s pair. */
  function OllamaHealth(available: bool, error: Option<string>): (h: ServiceHealth)
    ensures h.status == "healthy" <==> available
    ensures h.status == "unhealthy" <==> !available
    ensures h.error == if available then None else error
  {
    ServiceHealth(if available then "healthy" else "unhealthy", if available then None else error, false, false)
  }

  /** `health_check`. `ollama` is what `check_ollama_availability`
      returned and `dbError` the text of the exception `SELECT 1` raised, if
      it did. */
  function HealthCheck(m: Manager, now: DateTime, ollama: (bool, Option<string>), dbError: Option<string>): (r: HealthReport)
    ensures |r.services| == 3
    ensures r.services[0] == ("ollama", OllamaHealth(ollama.0, ollama.1))
    ensures r.services[1].0 == "database" && (r.services[1].1.status == "unhealthy" <==> dbError.Some?)
    ensures r.services[2].0 == "background_tasks" && r.services[2].1.status == (if m.tasksRunning then "healthy" else "stopped")
    ensures r.overallStatus == "unhealthy" <==> exists i :: 0 <= i < |r.services| && r.services[i].1.status == "unhealthy"
    ensures r.overallStatus != "unhealthy" ==> r.overallStatus == "healthy" && r.unhealthyServices.None?
    ensures r.unhealthyServices.Some? ==> r.unhealthyServices.value == UnhealthyNames(r.services) && |r.unhealthyServices.value| > 0
  {
    var database := match dbError
      case None => ServiceHealth("healthy", None, false, false)
      case Some(e) => ServiceHealth("unhealthy", Some(e), false, false);
    var tasks := ServiceHealth(if m.tasksRunning then "healthy" else "stopped", None,
                               NotCancelled(m.cleanupLoop), NotCancelled(m.monitorLoop));
    var services := [("ollama", OllamaHealth(ollama.0, ollama.1)), ("database", database), ("background_tasks", tasks)];
    var unhealthy := UnhealthyNames(services);
    NoUnhealthyNames(services);
    if |unhealthy| > 0 then HealthReport(now, "unhealthy", services, Some(unhealthy))
    else HealthReport(now, "healthy", services, None)
  }

  /** Stopped background tasks alone never make the bot unhealthy; with the
      client's availability check as the Ollama entry, the overall status is
      "unhealthy" exactly when the server or the database is down. */
  lemma HealthIgnoresStoppedTasks(m: Manager, now: DateTime, listError: Option<string>, dbError: Option<string>)
    ensures var r := HealthCheck(m, now, OllamaClient.CheckOllamaAvailability(listError), dbError);
      (r.overallStatus == "unhealthy" <==> listError.Some? || dbError.Some?)
  {
    var r := HealthCheck(m, now, OllamaClient.CheckOllamaAvailability(listError), dbError);
    if listError.Some? {
      assert r.services[0].1.status == "unhealthy";
    } else if dbError.Some? {
      assert r.services[1].1.status == "unhealthy";
    } else {
      assert forall i :: 0 <= i < |r.services| ==> r.services[i].1.status != "unhealthy" by {
        assert r.services[0].1.status == "healthy";
      }
    }
  }

  // ---------------------------------------------------------------------------
  // get_system_stats
  // ---------------------------------------------------------------------------

  /** What `get_server_stats` returned for one guild: its profile and
      active-session counts, or an exception. */
  datatype ServerStats = ServerStats(totalProfiles: int, activeSessions: int)

  datatype EchoTotals = EchoTotals(totalProfiles: int, activeSessions: int, totalMessagesProcessed: int)

  /** The `echo` part of `get_system_stats`: sums over the guilds whose
      stats call returned; `total_messages_processed` is never updated. */
  function EchoStats(perGuild: seq<Result<ServerStats>>): (t: EchoTotals)
    ensures t.totalMessagesProcessed == 0
    ensures (forall i :: 0 <= i < |perGuild| ==> perGuild[i].Err?) ==> t == EchoTotals(0, 0, 0)
  {
    if |perGuild| == 0 then EchoTotals(0, 0, 0)
    else
      var rest := EchoStats(perGuild[1..]);
      assert forall i :: 0 <= i < |perGuild| - 1 ==> perGuild[1..][i] == perGuild[i + 1];
      match perGuild[0]
      case Err(_) => rest
      case Ok(s) => EchoTotals(s.totalProfiles + rest.totalProfiles, s.activeSessions + rest.activeSessions, 0)
  }

  /** The guilds whose stats call returned. */
  function Answered(perGuild: seq<Result<ServerStats>>): seq<ServerStats> {
    if |perGuild| == 0 then []
    else (if perGuild[0].Ok? then [perGuild[0].value] else []) + Answered(perGuild[1..])
  }

  function SumProfiles(s: seq<ServerStats>): int {
    if |s| == 0 then 0 else s[0].totalProfiles + SumProfiles(s[1..])
  }

  function SumSessions(s: seq<ServerStats>): int {
    if |s| == 0 then 0 else s[0].activeSessions + SumSessions(s[1..])
  }

  /** The totals are the plain sums over the guilds that answered. */
  lemma {:induction false} EchoStatsSumsAnswered(perGuild: seq<Result<ServerStats>>)
    ensures EchoStats(perGuild).totalProfiles == SumProfiles(Answered(perGuild))
    ensures EchoStats(perGuild).activeSessions == SumSessions(Answered(perGuild))
  {
    if |perGuild| > 0 {
      EchoStatsSumsAnswered(perGuild[1..]);
      var rest := Answered(perGuild[1..]);
      if perGuild[0].Ok? {
        assert Answered(perGuild) == [perGuild[0].value] + rest;
        assert ([perGuild[0].value] + rest)[1..] == rest;
      } else {
        assert Answered(perGuild) == rest;
      }
    }
  }

  /** Guilds are summed independently: splitting the guild list splits the
      totals, so a guild whose call raised changes nothing. */
  lemma {:induction false} EchoStatsConcat(a: seq<Result<ServerStats>>, b: seq<Result<ServerStats>>)
    ensures EchoStats(a + b).totalProfiles == EchoStats(a).totalProfiles + EchoStats(b).totalProfiles
    ensures EchoStats(a + b).activeSessions == EchoStats(a).activeSessions + EchoStats(b).activeSessions
    decreases |a|
  {
    if |a| == 0 {
      assert a + b == b;
    } else {
      assert (a + b)[1..] == a[1..] + b;
      EchoStatsConcat(a[1..], b);
    }
  }

  datatype SystemStats = SystemStats(guilds: nat, users: nat, echo: EchoTotals, tasksRunning: bool)

  /** `get_system_stats` (uptime left out). */
  function GetSystemStats(m: Manager, users: nat, perGuild: seq<Result<ServerStats>>): (s: SystemStats)
    ensures s.guilds == |perGuild| && s.users == users && s.tasksRunning == m.tasksRunning
    ensures s.echo.totalProfiles == SumProfiles(Answered(perGuild))
    ensures s.echo.activeSessions == SumSessions(Answered(perGuild))
  {
    EchoStatsSumsAnswered(perGuild);
    SystemStats(|perGuild|, users, EchoStats(perGuild), m.tasksRunning)
  }
}
