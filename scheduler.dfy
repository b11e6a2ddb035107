/** The background reminder scheduler (backend/reminder_service.py): a `running` flag, idempotent
    start and stop, and a loop that runs one dispatch pass and then waits up to the interval in
    one-second steps, looking at the flag before each step. The thread is not modelled; what another
    thread does while the loop waits (a call to `stop`) is an input to the step that observes it. */
module Scheduler {
  import opened Wrappers
  import opened Models
  import opened Reminders

  /** What the environment does during one turn of the loop: the instant of the pass, the outcome of
      every sender call, whether the appointment query itself fails (raising out of the pass), and
      after how many seconds of waiting another thread calls `stop`, if it does during this turn. */
  datatype TurnInput = TurnInput(now: int, attempt: nat -> SendOutcome, queryFails: bool, stopAfter: Option<nat>)

  class ReminderScheduler {
    const intervalMinutes: int
    const intervalSeconds: int
    var running: bool
    /** How many loop threads this scheduler has spawned; `self.thread` is the latest one. */
    var threadCount: nat

    /** `ReminderScheduler(interval_minutes)`. */
    constructor (intervalMinutes: int)
      ensures this.intervalMinutes == intervalMinutes
      ensures intervalSeconds == intervalMinutes * 60
      ensures !running && threadCount == 0
    {
      this.intervalMinutes := intervalMinutes;
      this.intervalSeconds := intervalMinutes * 60;
      running := false;
      threadCount := 0;
    }

    /** `start`: a no-op while running; otherwise sets the flag and spawns one loop thread. */
    method Start()
      modifies this
      ensures running
      ensures old(running) ==> threadCount == old(threadCount)
      ensures !old(running) ==> threadCount == old(threadCount) + 1
    {
      if running {
        return;
      }
      running := true;
      threadCount := threadCount + 1;
    }

    /** `stop`: clears the flag, whatever the state; joining the thread changes nothing here. */
    method Stop()
      modifies this
      ensures !running
      ensures threadCount == old(threadCount)
    {
      running := false;
    }

    /** The wait at the end of a turn: up to `interval_seconds` one-second sleeps, leaving as soon as
        the flag is seen cleared. `stopAfter == Some(k)` means that another thread calls `stop` after
        the k-th second of this wait. */
    method WaitForNextCheck(stopAfter: Option<nat>) returns (waited: nat)
      modifies this
      ensures threadCount == old(threadCount)
      ensures waited <= if intervalSeconds < 0 then 0 else intervalSeconds
      ensures old(running) && stopAfter.Some? && stopAfter.value < intervalSeconds ==>
                waited == stopAfter.value && !running
      ensures old(running) && (stopAfter.None? || stopAfter.value >= intervalSeconds) ==>
                waited == (if intervalSeconds < 0 then 0 else intervalSeconds) && running
      ensures !old(running) ==> waited == 0 && !running
    {
      waited := 0;
      while waited < intervalSeconds
        invariant waited <= if intervalSeconds < 0 then 0 else intervalSeconds
        invariant threadCount == old(threadCount)
        invariant !old(running) ==> waited == 0 && !running
        invariant old(running) ==> running
        invariant old(running) && stopAfter.Some? ==> waited <= stopAfter.value
      {
        if stopAfter == Some(waited) {
          Stop();
        }
        if !running {
          break;
        }
        waited := waited + 1;
      }
    }

    /** One turn of `_run_scheduler`'s `while self.running` loop: when the flag is set, run the pass
        (an exception out of it is caught and logged), then wait. Returns whether a pass ran. */
    method Turn(table: AppointmentTable, input: TurnInput) returns (ran: bool, waited: nat)
      modifies this, table
      ensures ran == old(running)
      ensures threadCount == old(threadCount)
      ensures ran && !input.queryFails ==> table.rows == PassRows(old(table.rows), input.now, false, false, input.attempt)
      ensures !ran || input.queryFails ==> table.rows == old(table.rows)
      ensures OnlyFlagsRaised(old(table.rows), table.rows)
      ensures !ran ==> waited == 0 && !running
      ensures ran ==> (running <==> input.stopAfter.None? || input.stopAfter.value >= intervalSeconds)
      ensures waited <= if intervalSeconds < 0 then 0 else intervalSeconds
    {
      if !running {
        return false, 0;
      }
      ran := true;
      if !input.queryFails {
        ghost var rows0 := table.rows;
        var _ := SendAppointmentReminders(table, input.now, false, false, input.attempt);
        PassOnlyRaisesFlags(rows0, input.now, false, false, input.attempt);
      }
      waited := WaitForNextCheck(input.stopAfter);
    }

    /** `_run_scheduler` over a finite stretch of turns: it keeps turning while the flag is set. A
        failing pass never ends the loop; only a `stop` does. However many passes run, the table
        keeps its rows and their fields, and a flag once raised stays raised. */
    method Run(table: AppointmentTable, inputs: seq<TurnInput>) returns (turns: nat)
      modifies this, table
      ensures turns <= |inputs|
      ensures threadCount == old(threadCount)
      ensures old(running) && (forall k :: 0 <= k < |inputs| ==> inputs[k].stopAfter.None?) ==>
                turns == |inputs| && running
      ensures !old(running) ==> turns == 0 && table.rows == old(table.rows)
      ensures turns < |inputs| ==> !running
      ensures OnlyFlagsRaised(old(table.rows), table.rows)
    {
      turns := 0;
      while turns < |inputs| && running
        invariant turns <= |inputs|
        invariant threadCount == old(threadCount)
        invariant !old(running) ==> turns == 0 && table.rows == old(table.rows) && !running
        invariant old(running) && (forall k :: 0 <= k < |inputs| ==> inputs[k].stopAfter.None?) ==> running
        invariant OnlyFlagsRaised(old(table.rows), table.rows)
      {
        ghost var before := table.rows;
        var _, _ := Turn(table, inputs[turns]);
        OnlyFlagsRaisedTransitive(old(table.rows), before, table.rows);
        turns := turns + 1;
      }
    }
  }

  /** The module-level `_scheduler` global and the functions around it. */
  class SchedulerRegistry {
    var scheduler: ReminderScheduler?

    constructor ()
      ensures scheduler == null
    {
      scheduler := null;
    }

    /** `start_reminder_scheduler`: creates the scheduler only when there is none (a later interval
        is ignored), starts it and returns it. */
    method StartReminderScheduler(intervalMinutes: int) returns (s: ReminderScheduler)
      modifies this, scheduler
      ensures scheduler == s && s.running
      ensures old(scheduler) == null ==>
                fresh(s) && s.intervalMinutes == intervalMinutes && s.threadCount == 1
      ensures old(scheduler) != null ==> s == old(scheduler)
      ensures old(scheduler) != null && old(scheduler.running) ==> s.threadCount == old(scheduler.threadCount)
      ensures old(scheduler) != null && !old(scheduler.running) ==> s.threadCount == old(scheduler.threadCount) + 1
    {
      if scheduler == null {
        scheduler := new ReminderScheduler(intervalMinutes);
      }
      s := scheduler;
      s.Start();
    }

    /** `stop_reminder_scheduler`: stops the scheduler if there is one; nothing otherwise. */
    method StopReminderScheduler()
      modifies scheduler
      ensures scheduler != null ==> !scheduler.running && scheduler.threadCount == old(scheduler.threadCount)
    {
      if scheduler != null {
        scheduler.Stop();
      }
    }

    /** `get_scheduler`: the scheduler if one was created, which runs exactly when
        `is_scheduler_running` says so. */
    function GetScheduler(): (r: ReminderScheduler?)
      reads this, scheduler
      ensures r == null ==> !IsSchedulerRunning()
      ensures r != null ==> (r.running <==> IsSchedulerRunning())
    {
      scheduler
    }

    /** `is_scheduler_running`: false without a scheduler, else its flag. */
    function IsSchedulerRunning(): (r: bool)
      reads this, scheduler
      ensures scheduler == null ==> !r
      ensures scheduler != null ==> r == scheduler.running
    {
      scheduler != null && scheduler.running
    }
  }

  /** A start hook that runs twice (as under the development server's auto-reloader) still yields
      one scheduler with one loop thread, keeping the interval of the first call. */
  method StartTwiceKeepsOneLoop() returns (sameInstance: bool, threads: nat, interval: int)
    ensures sameInstance && threads == 1 && interval == 5
  {
    var registry := new SchedulerRegistry();
    var first := registry.StartReminderScheduler(5);
    var second := registry.StartReminderScheduler(10);
    sameInstance := first == second;
    threads := second.threadCount;
    interval := second.intervalMinutes;
  }
}
