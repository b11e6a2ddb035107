/** The start-up hook `BackendConfig.ready` (backend/apps.py): whether the process starts the
    reminder scheduler. The delayed-start thread itself is not modelled; the decision and the
    interval it passes on are. */
module Startup {
  import opened Wrappers

  /** Management commands under which the scheduler is not started. */
  const SkipCommands: seq<string> := ["migrate", "makemigrations", "test", "shell", "collectstatic"]

  /** The interval the hook hands to `start_reminder_scheduler`. */
  const AutoStartIntervalMinutes: int := 5

  /** `any(cmd in sys.argv for cmd in [...])`: some skip command is an element of `argv`. */
  predicate RunsSkipCommand(argv: seq<string>) {
    exists k :: 0 <= k < |SkipCommands| && SkipCommands[k] in argv
  }

  /** The condition of `ready`: `RUN_MAIN` or `ENABLE_REMINDERS` is the string "true", or the
      process runs none of the skip commands. Unset variables are `None`. */
  predicate ShouldStartScheduler(runMain: Option<string>, enableReminders: Option<string>, argv: seq<string>) {
    runMain == Some("true") || enableReminders == Some("true") || !RunsSkipCommand(argv)
  }

  /** What `ready` does: spawn the delayed start with the fixed interval, skip, or (when preparing
      the start raises) log the error and carry on. */
  datatype ReadyAction = SpawnDelayedStart(intervalMinutes: int) | Skip | LoggedSetupFailure

  /** `BackendConfig.ready`; `setupFails` stands for an exception while importing or spawning. */
  function Ready(runMain: Option<string>, enableReminders: Option<string>, argv: seq<string>, setupFails: bool): (r: ReadyAction)
    ensures r == Skip <==> !ShouldStartScheduler(runMain, enableReminders, argv)
    ensures r.SpawnDelayedStart? ==> r.intervalMinutes == AutoStartIntervalMinutes && !setupFails
    ensures ShouldStartScheduler(runMain, enableReminders, argv) && setupFails ==> r == LoggedSetupFailure
    ensures ShouldStartScheduler(runMain, enableReminders, argv) && !setupFails ==> r == SpawnDelayedStart(AutoStartIntervalMinutes)
  {
    if !ShouldStartScheduler(runMain, enableReminders, argv) then Skip
    else if setupFails then LoggedSetupFailure
    else SpawnDelayedStart(AutoStartIntervalMinutes)
  }

  /** The hook skips exactly when neither variable is "true" and some element of `argv` is one of
      the skip commands. */
  lemma SkipIffSkipCommandWithoutOverride(runMain: Option<string>, enableReminders: Option<string>, argv: seq<string>)
    ensures !ShouldStartScheduler(runMain, enableReminders, argv) <==>
              && runMain != Some("true")
              && enableReminders != Some("true")
              && (exists i :: 0 <= i < |argv| && argv[i] in SkipCommands)
  {
    if exists i :: 0 <= i < |argv| && argv[i] in SkipCommands {
      var i :| 0 <= i < |argv| && argv[i] in SkipCommands;
      var k :| 0 <= k < |SkipCommands| && SkipCommands[k] == argv[i];
      assert SkipCommands[k] in argv;
    }
  }

  /** Either variable set to "true" starts the scheduler, even under a skip command. */
  lemma OverrideAlwaysStarts(argv: seq<string>, other: Option<string>)
    ensures ShouldStartScheduler(Some("true"), other, argv)
    ensures ShouldStartScheduler(other, Some("true"), argv)
  {
  }

  /** Membership is whole-element equality: `testserver` and `migrate_schemas` are not skip
      commands, and a path that merely contains "test" is not either. */
  lemma MembershipIsExact()
    ensures ShouldStartScheduler(None, None, ["manage.py", "testserver"])
    ensures ShouldStartScheduler(None, None, ["manage.py", "migrate_schemas"])
    ensures ShouldStartScheduler(None, None, ["/srv/test/manage.py", "runserver"])
    ensures !ShouldStartScheduler(None, None, ["manage.py", "test"])
    ensures !ShouldStartScheduler(Some("1"), Some("True"), ["manage.py", "migrate"])
  {
    assert "manage.py" != "test" && "testserver" != "test";
    assert SkipCommands[2] in ["manage.py", "test"];
    assert SkipCommands[0] in ["manage.py", "migrate"];
  }
}
