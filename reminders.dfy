/** One pass of the `send_appointment_reminders` management command
    (backend/management/commands/send_appointment_reminders.py): select the appointments that start
    about an hour from now, send each a reminder, and record every success in `reminder_sent`. */
module Reminders {
  import opened Models

  /** The window opens 55 minutes and closes 65 minutes after the moment of the pass. */
  const WindowOpensAfter: int := 55
  const WindowClosesAfter: int := 65

  datatype Window = Window(start: int, end: int)

  /** `[now + 55 min, now + 65 min]`. */
  function ReminderWindow(now: int): (w: Window)
    ensures w.end - w.start == WindowClosesAfter - WindowOpensAfter
    ensures w.start - now == WindowOpensAfter
  {
    Window(now + WindowOpensAfter, now + WindowClosesAfter)
  }

  /** Only scheduled and confirmed appointments are reminded. */
  predicate Eligible(s: Status) {
    s == Scheduled || s == Confirmed
  }

  /** The query of the pass: the date equals the date of the window's start, the time lies between
      the times of day of the window's start and end, the status is eligible, and unless `force` the
      reminder has not been sent yet. */
  predicate Selected(a: Appointment, w: Window, force: bool) {
    && a.date == Day(w.start)
    && TimeOfDay(w.start) <= a.time <= TimeOfDay(w.end)
    && Eligible(a.status)
    && (force || !a.reminderSent)
  }

  /** The indices of the selected rows, in table order. */
  function Candidates(rows: seq<Appointment>, w: Window, force: bool): (c: seq<nat>)
    ensures forall k :: 0 <= k < |c| ==> c[k] < |rows| && Selected(rows[c[k]], w, force)
    ensures forall i :: 0 <= i < |rows| && Selected(rows[i], w, force) ==> i in c
    ensures forall j, k :: 0 <= j < k < |c| ==> c[j] < c[k]
  {
    if rows == [] then []
    else
      var front := Candidates(rows[..|rows| - 1], w, force);
      if Selected(rows[|rows| - 1], w, force) then front + [|rows| - 1] else front
  }

  /** What the sender did on one call: returned true, returned false, or raised. */
  datatype SendOutcome = Sent | NotSent | Raised

  /** The counters the command reports: matches found, reminders sent, sends failed. */
  datatype Summary = Summary(found: nat, sent: nat, failed: nat)

  /** How many of the first `n` sender calls succeeded. */
  function CountSent(attempt: nat -> SendOutcome, n: nat): (r: nat)
    ensures r <= n
  {
    if n == 0 then 0 else CountSent(attempt, n - 1) + (if attempt(n - 1) == Sent then 1 else 0)
  }

  /** How many of the first `n` sender calls returned false or raised. */
  function CountFailed(attempt: nat -> SendOutcome, n: nat): (r: nat)
    ensures r <= n
  {
    if n == 0 then 0 else CountFailed(attempt, n - 1) + (if attempt(n - 1) == Sent then 0 else 1)
  }

  /** Every call is counted exactly once, as sent or as failed. */
  lemma {:induction false} SentPlusFailed(attempt: nat -> SendOutcome, n: nat)
    ensures CountSent(attempt, n) + CountFailed(attempt, n) == n
  {
    if n > 0 {
      SentPlusFailed(attempt, n - 1);
    }
  }

  /** The rows whose reminder went out among the first `n` candidates (call k is for candidate k). */
  function Delivered(cands: seq<nat>, attempt: nat -> SendOutcome, n: nat): set<nat> {
    set k | 0 <= k < n && k < |cands| && attempt(k) == Sent :: cands[k]
  }

  /** The table after `reminder_sent = True` has been saved for the rows in `marked`. */
  function MarkSent(rows: seq<Appointment>, marked: set<nat>): (r: seq<Appointment>)
    ensures |r| == |rows|
  {
    seq(|rows|, i requires 0 <= i < |rows| => if i in marked then rows[i].(reminderSent := true) else rows[i])
  }

  /** The table after a whole pass at instant `now`. */
  function PassRows(rows: seq<Appointment>, now: int, force: bool, dryRun: bool, attempt: nat -> SendOutcome): seq<Appointment> {
    var cands := Candidates(rows, ReminderWindow(now), force);
    if dryRun then rows else MarkSent(rows, Delivered(cands, attempt, |cands|))
  }

  /** The counters reported by a whole pass at instant `now`. */
  function PassSummary(rows: seq<Appointment>, now: int, force: bool, dryRun: bool, attempt: nat -> SendOutcome): Summary {
    var n := |Candidates(rows, ReminderWindow(now), force)|;
    if dryRun then Summary(n, n, 0) else Summary(n, CountSent(attempt, n), CountFailed(attempt, n))
  }

  /** Call k adds its candidate to the delivered rows exactly when it succeeds. */
  lemma DeliveredStep(cands: seq<nat>, attempt: nat -> SendOutcome, k: nat)
    requires k < |cands|
    ensures attempt(k) == Sent ==> Delivered(cands, attempt, k + 1) == Delivered(cands, attempt, k) + {cands[k]}
    ensures attempt(k) != Sent ==> Delivered(cands, attempt, k + 1) == Delivered(cands, attempt, k)
  {
    var d, d' := Delivered(cands, attempt, k), Delivered(cands, attempt, k + 1);
    forall x | x in d' ensures x in d || (x == cands[k] && attempt(k) == Sent) {
      var j :| 0 <= j < k + 1 && j < |cands| && attempt(j) == Sent && cands[j] == x;
      if j < k {
        assert x in d;
      }
    }
    forall x | x in d ensures x in d' {
      var j :| 0 <= j < k && j < |cands| && attempt(j) == Sent && cands[j] == x;
      assert j < k + 1;
    }
  }

  /** Setting the flag of one more row of a marked table is marking that row as well. */
  lemma MarkOneMore(rows0: seq<Appointment>, marked: set<nat>, c: nat)
    requires c < |rows0|
    ensures var current := MarkSent(rows0, marked);
            current[c := current[c].(reminderSent := true)] == MarkSent(rows0, marked + {c})
  {
    var current := MarkSent(rows0, marked);
    var lhs := current[c := current[c].(reminderSent := true)];
    var rhs := MarkSent(rows0, marked + {c});
    assert forall i :: 0 <= i < |rows0| ==> lhs[i] == rhs[i];
  }

  /** Saving the flag of candidate k after the calls before it is the table after the first k + 1 calls. */
  lemma MarkStep(rows0: seq<Appointment>, cands: seq<nat>, attempt: nat -> SendOutcome, k: nat, current: seq<Appointment>)
    requires k < |cands| && cands[k] < |rows0|
    requires current == MarkSent(rows0, Delivered(cands, attempt, k))
    ensures attempt(k) == Sent ==>
              current[cands[k] := current[cands[k]].(reminderSent := true)] == MarkSent(rows0, Delivered(cands, attempt, k + 1))
    ensures attempt(k) != Sent ==> current == MarkSent(rows0, Delivered(cands, attempt, k + 1))
  {
    DeliveredStep(cands, attempt, k);
    MarkOneMore(rows0, Delivered(cands, attempt, k), cands[k]);
  }

  /** The body of the loop outside a dry run, for candidate k: call the sender; on success save
      `reminder_sent` on that row and count it as sent, otherwise count it as failed. */
  method SendOne(table: AppointmentTable, ghost rows0: seq<Appointment>, cands: seq<nat>, attempt: nat -> SendOutcome, k: nat,
                 sentCount: nat, failedCount: nat)
    returns (sentCount': nat, failedCount': nat)
    requires k < |cands| && cands[k] < |rows0|
    requires table.rows == MarkSent(rows0, Delivered(cands, attempt, k))
    requires sentCount == CountSent(attempt, k) && failedCount == CountFailed(attempt, k)
    modifies table
    ensures sentCount' == CountSent(attempt, k + 1) && failedCount' == CountFailed(attempt, k + 1)
    ensures table.rows == MarkSent(rows0, Delivered(cands, attempt, k + 1))
  {
    MarkStep(rows0, cands, attempt, k, table.rows);
    match attempt(k)
    case Sent =>
      var i := cands[k];
      table.rows := table.rows[i := table.rows[i].(reminderSent := true)];
      sentCount', failedCount' := sentCount + 1, failedCount;
    case NotSent =>
      sentCount', failedCount' := sentCount, failedCount + 1;
    case Raised =>
      sentCount', failedCount' := sentCount, failedCount + 1;
  }

  /** The `for appointment in appointments` loop over the candidates, with its two counters. */
  method SendAll(table: AppointmentTable, cands: seq<nat>, dryRun: bool, attempt: nat -> SendOutcome)
    returns (sentCount: nat, failedCount: nat)
    requires forall k :: 0 <= k < |cands| ==> cands[k] < |table.rows|
    modifies table
    ensures dryRun ==> sentCount == |cands| && failedCount == 0 && table.rows == old(table.rows)
    ensures !dryRun ==> sentCount == CountSent(attempt, |cands|) && failedCount == CountFailed(attempt, |cands|)
    ensures !dryRun ==> table.rows == MarkSent(old(table.rows), Delivered(cands, attempt, |cands|))
  {
    ghost var rows0 := table.rows;
    sentCount, failedCount := 0, 0;
    for k := 0 to |cands|
      invariant dryRun ==> sentCount == k && failedCount == 0 && table.rows == rows0
      invariant !dryRun ==> sentCount == CountSent(attempt, k) && failedCount == CountFailed(attempt, k)
      invariant !dryRun ==> table.rows == MarkSent(rows0, Delivered(cands, attempt, k))
    {
      if dryRun {
        sentCount := sentCount + 1;
      } else {
        sentCount, failedCount := SendOne(table, rows0, cands, attempt, k, sentCount, failedCount);
      }
    }
  }

  /** `handle` of the command: one pass over the table at instant `now`. The k-th call to the sender
      has outcome `attempt(k)`; an exception it raises is caught and counted as a failure. */
  method SendAppointmentReminders(table: AppointmentTable, now: int, dryRun: bool, force: bool,
                                  attempt: nat -> SendOutcome) returns (summary: Summary)
    modifies table
    ensures table.rows == PassRows(old(table.rows), now, force, dryRun, attempt)
    ensures summary == PassSummary(old(table.rows), now, force, dryRun, attempt)
  {
    var window := ReminderWindow(now);
    var cands := Candidates(table.rows, window, force);
    if |cands| == 0 {
      return Summary(0, 0, 0);
    }
    var sentCount, failedCount := SendAll(table, cands, dryRun, attempt);
    summary := Summary(|cands|, sentCount, failedCount);
  }

  // ---------------------------------------------------------------------------
  // Properties of a pass

  /** Every candidate is counted once, as sent or as failed; a dry run counts all of them as sent. */
  lemma PassAccountsForEveryCandidate(rows: seq<Appointment>, now: int, force: bool, dryRun: bool, attempt: nat -> SendOutcome)
    ensures var s := PassSummary(rows, now, force, dryRun, attempt);
            && s.found == |Candidates(rows, ReminderWindow(now), force)|
            && s.sent + s.failed == s.found
            && (dryRun ==> s.sent == s.found && s.failed == 0)
  {
    SentPlusFailed(attempt, |Candidates(rows, ReminderWindow(now), force)|);
  }

  /** A pass changes nothing but `reminder_sent`, and only from false to true. */
  lemma PassOnlyRaisesFlags(rows: seq<Appointment>, now: int, force: bool, dryRun: bool, attempt: nat -> SendOutcome)
    ensures var r := PassRows(rows, now, force, dryRun, attempt);
            && |r| == |rows|
            && (forall i :: 0 <= i < |rows| ==> r[i].(reminderSent := rows[i].reminderSent) == rows[i])
            && (forall i :: 0 <= i < |rows| && rows[i].reminderSent ==> r[i].reminderSent)
  {
  }

  /** `after` is `before` with, at most, some `reminder_sent` flags raised from false to true. */
  predicate OnlyFlagsRaised(before: seq<Appointment>, after: seq<Appointment>) {
    && |after| == |before|
    && (forall i :: 0 <= i < |before| ==> after[i].(reminderSent := before[i].reminderSent) == before[i])
    && (forall i :: 0 <= i < |before| && before[i].reminderSent ==> after[i].reminderSent)
  }

  /** Passes compose: tables reached by raising flags, then raising more, differ from the first
      only in raised flags. */
  lemma OnlyFlagsRaisedTransitive(a: seq<Appointment>, b: seq<Appointment>, c: seq<Appointment>)
    requires OnlyFlagsRaised(a, b) && OnlyFlagsRaised(b, c)
    ensures OnlyFlagsRaised(a, c)
  {
    forall i | 0 <= i < |a| ensures c[i].(reminderSent := a[i].reminderSent) == a[i] {
      assert c[i].(reminderSent := b[i].reminderSent) == b[i];
      assert b[i].(reminderSent := a[i].reminderSent) == a[i];
    }
  }

  /** A dry run changes no row; a pass that finds nothing changes no row and counts nothing. */
  lemma PassWithoutEffect(rows: seq<Appointment>, now: int, force: bool, dryRun: bool, attempt: nat -> SendOutcome)
    ensures dryRun ==> PassRows(rows, now, force, dryRun, attempt) == rows
    ensures Candidates(rows, ReminderWindow(now), force) == [] ==>
              PassRows(rows, now, force, dryRun, attempt) == rows &&
              PassSummary(rows, now, force, dryRun, attempt) == Summary(0, 0, 0)
  {
    if !dryRun && Candidates(rows, ReminderWindow(now), force) == [] {
      var r := PassRows(rows, now, force, dryRun, attempt);
      assert forall i :: 0 <= i < |rows| ==> r[i] == rows[i];
    }
  }

  /** Outside a dry run, a row's flag is set afterwards exactly when it was set before or it was
      selected and the sender call made for it succeeded. */
  lemma PassSetsFlagOnSuccess(rows: seq<Appointment>, now: int, force: bool, attempt: nat -> SendOutcome, i: nat)
    requires i < |rows|
    ensures var cands := Candidates(rows, ReminderWindow(now), force);
            PassRows(rows, now, force, false, attempt)[i].reminderSent <==>
              rows[i].reminderSent || (exists k :: 0 <= k < |cands| && cands[k] == i && attempt(k) == Sent)
  {
    var cands := Candidates(rows, ReminderWindow(now), force);
    var d := Delivered(cands, attempt, |cands|);
    assert PassRows(rows, now, force, false, attempt)[i] == if i in d then rows[i].(reminderSent := true) else rows[i];
    if exists k :: 0 <= k < |cands| && cands[k] == i && attempt(k) == Sent {
      var k :| 0 <= k < |cands| && cands[k] == i && attempt(k) == Sent;
      assert i in d;
    }
  }

  /** A row whose reminder went out is no candidate of a later pass without `force`: the flag alone
      prevents a second reminder. */
  lemma SentRowNotSelectedAgain(rows: seq<Appointment>, now: int, force: bool, attempt: nat -> SendOutcome, i: nat, w: Window)
    requires i < |rows|
    requires rows[i].reminderSent || i in Delivered(Candidates(rows, ReminderWindow(now), force), attempt, |Candidates(rows, ReminderWindow(now), force)|)
    ensures !Selected(PassRows(rows, now, force, false, attempt)[i], w, false)
  {
  }

  // ---------------------------------------------------------------------------
  // Properties of the window

  /** When the window runs past midnight, the time of day of its end is smaller than that of its
      start, so no appointment at all is selected, whatever its date, time or status. */
  lemma MidnightWindowSelectsNothing(now: int, a: Appointment, force: bool)
    requires Day(now + WindowOpensAfter) != Day(now + WindowClosesAfter)
    ensures !Selected(a, ReminderWindow(now), force)
  {
    var w := ReminderWindow(now);
    var ds, de := Day(w.start), Day(w.end);
    assert w.start == ds * MinutesPerDay + TimeOfDay(w.start);
    assert w.end == de * MinutesPerDay + TimeOfDay(w.end);
    assert de > ds;
    assert TimeOfDay(w.end) < TimeOfDay(w.start);
  }

  /** When the window stays within one day, an appointment with a valid time of day matches the
      date-and-time test exactly when it starts within the window. */
  lemma SelectedIffStartsInWindow(now: int, a: Appointment, force: bool)
    requires Day(now + WindowOpensAfter) == Day(now + WindowClosesAfter)
    requires ValidTimeOfDay(a.time)
    ensures Selected(a, ReminderWindow(now), force) <==>
              && now + WindowOpensAfter <= AppointmentDateTime(a) <= now + WindowClosesAfter
              && Eligible(a.status)
              && (force || !a.reminderSent)
  {
    var w := ReminderWindow(now);
    var d := Day(w.start);
    assert w.start == d * MinutesPerDay + TimeOfDay(w.start);
    assert w.end == d * MinutesPerDay + TimeOfDay(w.end);
    var t := AppointmentDateTime(a);
    assert t == a.date * MinutesPerDay + a.time;
  }

  /** With `force`, the flag is ignored: an appointment is selected exactly when its unsent copy would be. */
  lemma ForceIgnoresFlag(a: Appointment, w: Window)
    ensures Selected(a, w, true) <==> Selected(a.(reminderSent := false), w, false)
  {
  }

  /** The scenario of a pass at 10:00: an appointment at 11:00 the same day is selected; ones at
      09:30, 10:40 and 11:10 are not; a cancelled one at 11:00 is not; one already reminded is
      selected only with `force`. */
  lemma TenOClockScenario(d: int)
    ensures var now := d * MinutesPerDay + 600;
            var w := ReminderWindow(now);
            && Selected(Appointment(1, d, 660, Confirmed, false, 1, 1), w, false)
            && !Selected(Appointment(2, d, 570, Scheduled, false, 1, 1), w, false)
            && !Selected(Appointment(3, d, 640, Scheduled, false, 1, 1), w, false)
            && !Selected(Appointment(4, d, 670, Scheduled, false, 1, 1), w, false)
            && !Selected(Appointment(5, d, 660, Cancelled, false, 1, 1), w, false)
            && !Selected(Appointment(6, d, 660, Scheduled, true, 1, 1), w, false)
            && Selected(Appointment(6, d, 660, Scheduled, true, 1, 1), w, true)
  {
    var now := d * MinutesPerDay + 600;
    CombineSplits(d, 655);
    CombineSplits(d, 665);
    assert now + WindowOpensAfter == Combine(d, 655);
    assert now + WindowClosesAfter == Combine(d, 665);
  }

  /** Three candidates whose second send fails: the first and third are marked, the second is not,
      and the pass reports three found, two sent, one failed. */
  lemma FailureIsIsolated(rows: seq<Appointment>, now: int, attempt: nat -> SendOutcome)
    requires |Candidates(rows, ReminderWindow(now), false)| == 3
    requires attempt(0) == Sent && attempt(1) != Sent && attempt(2) == Sent
    ensures PassSummary(rows, now, false, false, attempt) == Summary(3, 2, 1)
    ensures var c := Candidates(rows, ReminderWindow(now), false);
            var r := PassRows(rows, now, false, false, attempt);
            r[c[0]].reminderSent && r[c[2]].reminderSent && r[c[1]] == rows[c[1]]
  {
    var c := Candidates(rows, ReminderWindow(now), false);
    var d := Delivered(c, attempt, 3);
    assert c[0] in d && c[2] in d;
    assert c[1] !in d by {
      assert c[0] < c[1] < c[2];
      forall k | 0 <= k < 3 && attempt(k) == Sent ensures c[k] != c[1] { }
    }
  }
}
