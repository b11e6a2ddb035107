# Isercom clinic: reminder pipeline and helpers, in Dafny

This project models the core of the Isercom clinic web application, a Django back end with a
plain JavaScript front end, and proves properties of that model. It covers:

- **Reminder pass** (`Reminders`). The `send_appointment_reminders` management command selects the
  appointments that start 55 to 65 minutes from now, sends each a reminder through an external
  sender, and records every success in `reminder_sent`.
- **Scheduler** (`Scheduler`). The background `ReminderScheduler` keeps a `running` flag and repeats
  that pass every few minutes. It sits behind a process-wide singleton.
- **Start-up** (`Startup`). The start-up hook decides whether the scheduler is started at all.
- **Records** (`Models`). The clinic's records: appointments and their statuses, user roles, names
  and ages, and the in-memory tables that stand for the database.
- **Usernames** (`Usernames`). Username generation, as shared by the admin forms and the sign-up form.
- **Admin forms** (`AdminForms`). The patient and doctor admin forms: field cleaners and the
  account bookkeeping of `save`.
- **Sign-up** (`Registration`). The sign-up form: email check, and `save` with its rollback.
- **Views** (`Views`). The doctor-only appointment status update, and the serving of front-end files.
- **Progress bar** (`Progress`). The registration progress bar's step counter and rendering.
- **Profile page** (`Profile`). The cookie lookup, the full-name display and split, and the page's
  editing state.

Time is whole minutes since an epoch. A day is `t / 1440` and a time of day is `t % 1440`; Dafny's
Euclidean division agrees with Python's floor division on dates. The database is a set of maps
keyed by primary key, with auto-increment counters. Code that mutates state is modelled by classes
and methods, each proved against a specification function. Pure code is modelled by functions and
lemmas.

The model follows the code as written. One consequence is the reminder window that crosses
midnight. The query compares times of day on the start date only, so such a window selects nothing. The model keeps this behaviour and states it as `Reminders.MidnightWindowSelectsNothing`.

## Model

| member | source | states |
|---|---|---|
| Models.TimeOfDay | backend/models.py:144-148 | the time of day of an instant lies in [0, 1440) |
| Models.CombineSplits | backend/models.py:144-148 | `datetime.combine` of a date and a valid time splits back into that date and time |
| Models.SplitCombines | backend/models.py:144-148 | every instant is the combination of its own date and time |
| Models.ParseStatus | backend/models.py:117-122 | a recognised status string is the stored name of the status it yields |
| Models.ParseStatusName | backend/models.py:117-122 | each of the four statuses is recognised from its own name, so the names are distinct |
| Models.NewAppointment | backend/models.py:123-130 | a new appointment is `scheduled` with `reminder_sent` false and keeps the given date, time, doctor and patient |
| Models.AppointmentDateTime | backend/models.py:144-148 | the appointment instant falls on the appointment's date at its time |
| Models.UserType | backend/models.py:13-19 | 'doctor' iff a doctor profile exists; 'patient' iff there is a patient profile and no doctor profile; 'user' iff neither |
| Models.ProfileNameIsFullName | backend/models.py:21-27 | the profile name is the doctor's full name for doctors and the plain full name otherwise; the doctor form is "Dr. " before the plain one (lines 60-62, 101-103) |
| Models.Age | backend/models.py:64-70 | no age without a date of birth, and an age with one |
| Models.AgeNonNegative | backend/models.py:69 | born on or before today gives an age of at least 0 |
| Models.AgeOnBirthday | backend/models.py:69 | on the n-th birthday the age is exactly n |
| Models.AgeStepsOnBirthday | backend/models.py:69 | the age on the birthday is one more than on any earlier day of that year |
| Models.AgeMonotone | backend/models.py:69 | the age never decreases as the date moves forward |
| Models.TakenUsernamesUpdate | backend/admin.py:46 | writing one user row replaces that user's username in the taken set and leaves the others |
| Models.DistinctAfterRename | backend/admin.py:156-159 | renaming one user to a name no other user holds keeps usernames unique |
| Reminders.ReminderWindow | backend/management/commands/send_appointment_reminders.py:37-38 | the window opens 55 minutes after now and is 10 minutes long |
| Reminders.Candidates | backend/management/commands/send_appointment_reminders.py:46-57 | the candidates are exactly the selected rows, in table order, each once |
| Reminders.SentPlusFailed | backend/management/commands/send_appointment_reminders.py:96-116 | every sender call is counted exactly once, as sent or as failed |
| Reminders.DeliveredStep | backend/management/commands/send_appointment_reminders.py:89-99 | call k adds its candidate to the delivered rows exactly when it succeeds, and adds nothing otherwise |
| Reminders.MarkOneMore | backend/management/commands/send_appointment_reminders.py:96-99 | saving `reminder_sent` on one more row gives the table marked over the grown set of rows |
| Reminders.SendOne | backend/management/commands/send_appointment_reminders.py:89-116 | one sender call: the sent or failed counter moves by one according to the outcome, and the row is marked exactly when the call succeeded |
| Reminders.SendAll | backend/management/commands/send_appointment_reminders.py:69-116 | the loop: a dry run counts every candidate as sent and changes nothing; otherwise the counters equal the successes and failures and the table is marked exactly on the delivered rows |
| Reminders.SendAppointmentReminders | backend/management/commands/send_appointment_reminders.py:25-116 | the loop leaves the table and the counters equal to the pass's specification (`PassRows`, `PassSummary`) |
| Reminders.PassAccountsForEveryCandidate | backend/management/commands/send_appointment_reminders.py:69-116 | sent + failed equals the number found; a dry run counts every candidate as sent (lines 83-87) |
| Reminders.PassOnlyRaisesFlags | backend/management/commands/send_appointment_reminders.py:96-99 | a pass changes no field but `reminder_sent`, and never clears it |
| Reminders.OnlyFlagsRaisedTransitive | backend/management/commands/send_appointment_reminders.py:96-99 | tables reached by one pass after another still differ from the first only in flags raised |
| Reminders.PassWithoutEffect | backend/management/commands/send_appointment_reminders.py:59-63 | a dry run changes nothing (lines 83-87); a pass with no candidates changes and counts nothing |
| Reminders.PassSetsFlagOnSuccess | backend/management/commands/send_appointment_reminders.py:96-116 | after a pass a row's flag is set iff it was set before, or the row was a candidate whose send succeeded |
| Reminders.SentRowNotSelectedAgain | backend/management/commands/send_appointment_reminders.py:54-55 | without `force`, a row reminded once is never a candidate again |
| Reminders.MidnightWindowSelectsNothing | backend/management/commands/send_appointment_reminders.py:46-51 | a window that runs past midnight selects no appointment at all |
| Reminders.SelectedIffStartsInWindow | backend/management/commands/send_appointment_reminders.py:46-51 | within one day, the date-and-time test holds iff the appointment starts inside [now+55, now+65] |
| Reminders.ForceIgnoresFlag | backend/management/commands/send_appointment_reminders.py:54-55 | with `force` the flag is ignored |
| Reminders.TenOClockScenario | backend/management/commands/send_appointment_reminders.py:37-55 | at 10:00, 11:00 is selected; 09:30, 10:40, 11:10, a cancelled one and an already reminded one are not, unless forced |
| Reminders.FailureIsIsolated | backend/management/commands/send_appointment_reminders.py:105-116 | a failed send in the middle leaves its row unmarked while the rows around it are marked; the counts are 3, 2, 1 |
| Scheduler.ReminderScheduler.constructor | backend/reminder_service.py:14-18 | interval in seconds is 60 times the minutes; a new scheduler is not running and has no thread |
| Scheduler.ReminderScheduler.Start | backend/reminder_service.py:20-29 | afterwards running; a start while running spawns no thread, a start while stopped spawns exactly one |
| Scheduler.ReminderScheduler.Stop | backend/reminder_service.py:31-36 | afterwards not running, whatever the state before |
| Scheduler.ReminderScheduler.WaitForNextCheck | backend/reminder_service.py:50-54 | the wait is at most the interval in seconds and ends at the second `stop` is seen |
| Scheduler.ReminderScheduler.Turn | backend/reminder_service.py:40-54 | a turn runs one pass when running, and a failing pass leaves the table unchanged and does not clear the flag; the table only ever gains raised flags |
| Scheduler.ReminderScheduler.Run | backend/reminder_service.py:38-54 | without a `stop`, the loop runs every turn and stays running; it ends early only once stopped; across all its passes the table keeps its rows and their fields, and no flag is ever cleared |
| Scheduler.SchedulerRegistry.StartReminderScheduler | backend/reminder_service.py:59-65 | the singleton is created only when absent; later calls return it, ignore the new interval and spawn no second thread while running |
| Scheduler.SchedulerRegistry.StopReminderScheduler | backend/reminder_service.py:67-71 | stops the scheduler if there is one and does nothing otherwise |
| Scheduler.SchedulerRegistry.GetScheduler | backend/reminder_service.py:72-74 | the scheduler if one was created; it is running exactly when `is_scheduler_running` says so |
| Scheduler.SchedulerRegistry.IsSchedulerRunning | backend/reminder_service.py:77-79 | false without a scheduler, otherwise its flag |
| Scheduler.StartTwiceKeepsOneLoop | backend/reminder_service.py:59-65 | starting twice yields one instance, one thread and the first interval |
| Startup.Ready | backend/apps.py:17-41 | skips iff the condition fails; when it holds, spawns the delayed start with a 5-minute interval (line 33) iff setup does not fail, and logs the failure otherwise (lines 38-41) |
| Startup.SkipIffSkipCommandWithoutOverride | backend/apps.py:17-21 | skipped iff neither variable is "true" and some argument equals a skip command |
| Startup.OverrideAlwaysStarts | backend/apps.py:18-19 | `RUN_MAIN` or `ENABLE_REMINDERS` equal to "true" always starts the scheduler |
| Startup.MembershipIsExact | backend/apps.py:20 | membership is whole-element equality: `testserver`, `migrate_schemas` and a path containing "test" do not skip |
| Usernames.CleanName | backend/admin.py:32-33 | a cleaned name holds no space and no capital letter |
| Usernames.CleanNameCounts | backend/admin.py:32-33 | the cleaned name keeps every character of the lower-cased name except the spaces, each as often |
| Usernames.CleanNameWithoutSpaces | backend/admin.py:32-33 | a name without spaces is only lower-cased |
| Usernames.CleanNameJoinsWords | backend/admin.py:32-33 | words separated by a space are lower-cased and joined in their order |
| Usernames.DoctorBase | backend/admin.py:254-259 | a doctor's base starts with `dr_` |
| Usernames.AccountBase | backend/admin.py:35-40 | the base of a doctor's account starts with `dr_` |
| Usernames.IdBaseIsSuffixed | backend/admin.py:35-40 | the id-based base is the name-based base with `_id` appended |
| Usernames.SuffixedInjective | backend/admin.py:48-50 | different counters give different suffixed names |
| Usernames.SuffixRangeSize | backend/admin.py:46-51 | base_1 … base_k are k distinct names, none equal to the base |
| Usernames.TakenBound | backend/admin.py:46-51 | k suffixed names all taken means at least k taken names, so the loop terminates |
| Usernames.FirstFreeFrom | backend/admin.py:46-51 | the first free suffixed name from k on, with every smaller suffix taken |
| Usernames.UniqueUsername | backend/admin.py:42-53 | the result is free; it is the base when the base is free, else base_k for the smallest k with base_k free |
| Usernames.GenerateUniqueUsername | backend/admin.py:42-53 | the loop returns `UniqueUsername` of the base and the taken names (the same loop is at lines 261-272 and at backend/forms.py:114-125) |
| Usernames.UniqueUsernameShape | backend/forms.py:114-125 | the generated name starts with the base and is not taken |
| Usernames.NewAccountUsername | backend/forms.py:133-169 | a new account's final username is free; without a profile it is the name-based one, with a profile it differs from it |
| Usernames.NewAccountUsernameShape | backend/admin.py:131-142 | the final username starts with the name-based base without a profile row, with the id-based base with one |
| Usernames.CreateUserWithUniqueName | backend/admin.py:117-128 | a new user row under the next key with the generated username; the taken set grows by it; uniqueness is kept |
| Usernames.RenameToUnique | backend/admin.py:133-142 | the rename to the id-based name always happens, because the name-based username is itself taken; uniqueness is kept |
| AdminForms.CleanEmail | backend/admin.py:55-68 | an empty email is required; an email held by a user other than the one edited is taken; otherwise accepted unchanged |
| AdminForms.OwnEmailAcceptedOnEdit | backend/admin.py:60-63 | an edited user keeping their own unique email is accepted, while a new form with it is rejected |
| AdminForms.CleanPassword | backend/admin.py:70-89 | accepted iff blank on edit or at least 8 characters with a letter and a digit; each error iff its condition, in checking order |
| AdminForms.PasswordCheckOrder | backend/admin.py:78-87 | length is checked before letters, letters before digits |
| AdminForms.CleanErrors | backend/admin.py:91-108 | an error is added iff its field is flagged |
| AdminForms.CleanErrorsNames | backend/admin.py:99-103 | first and last name are each flagged iff given but under 2 characters once stripped (also lines 331-335) |
| AdminForms.CleanErrorsProfile | backend/admin.py:323-340 | only a doctor's speciality (under 3) and only a patient's phone (under 10, lines 105-106) are flagged |
| AdminForms.BlankValueIsTooShort | backend/admin.py:99-106 | a value of spaces only is always too short; an empty value never is |
| AdminForms.CleanLicenseNumber | backend/admin.py:289-300 | rejected iff given and held by a doctor other than the one edited |
| AdminForms.EditedUsernameAsWritten | backend/admin.py:151-159 | the edit branch as written yields the current username or one nobody holds |
| AdminForms.AsWrittenEditAlwaysRenames | backend/admin.py:156-159 | as written, the "held by another user" test never fails and the username always changes |
| AdminForms.EditTogglesUsername | backend/admin.py:151-159 | two unchanged saves of Ann Lee (patient 3) go from ann_lee_3 to ann_lee_3_1 and back |
| AdminForms.EditedUsername | backend/admin.py:151-159 | corrected rule: the new username is held by no other user and is the base when the base is free of others |
| AdminForms.EditedUsernameStable | backend/admin.py:151-159 | under the corrected rule a second unchanged save keeps the username, and a holder of the base keeps it |
| AdminForms.CreateProfile | backend/admin.py:131-132 | the new patient or doctor row is stored under the next key of its table, pointing at the user |
| AdminForms.FinishNew | backend/admin.py:131-142 | commit saves the profile, then renames the user to the name generated from the profile id |
| AdminForms.SaveNew | backend/admin.py:110-142 | the new user's username is `NewAccountUsername`; the profile exists iff commit; uniqueness is kept |
| AdminForms.WriteEdit | backend/admin.py:143-166 | with the username chosen: email and names replaced; password replaced only when given; profile written on commit; uniqueness kept |
| AdminForms.SaveExistingAsWritten | backend/admin.py:143-166 | the edit branch as written: the username becomes `EditedUsernameAsWritten` and always changes; the other writes as in `WriteEdit` |
| AdminForms.SaveExisting | backend/admin.py:143-166 | the edit branch with the corrected rule: the username becomes `EditedUsername`; the other writes as in `WriteEdit` |
| Registration.CleanEmail | backend/forms.py:127-131 | rejected iff any user at all holds the email |
| Registration.CleanEmailNoExclusion | backend/forms.py:127-131 | every existing user's own email is rejected; an unused one is accepted |
| Registration.Save | backend/forms.py:133-176 | without commit only the user is created; with commit the patient row is created and the user renamed; if the profile fails, the user is deleted and nothing remains |
| Views.FindOwned | backend/views.py:65-69 | finds the first row with that id whose doctor is the caller, and none iff no such row exists |
| Views.UpdateAppointmentStatus | backend/views.py:54-98 | reply and table equal `StatusUpdate` of the old table: 403, 404, 405, 400 or 200 with the status stored |
| Views.ErrorRepliesChangeNothing | backend/views.py:57-98 | every reply other than 200 leaves the table unchanged; no doctor profile means 403; 200 iff owned, POST and a valid status |
| Views.SuccessChangesOnlyOwnRowStatus | backend/views.py:71-77 | a 200 changes one row of the caller with the requested id, only its status, to the posted one |
| Views.AnyStatusFromAnyStatus | backend/views.py:71-77 | any status can be posted over any current status |
| Views.OtherDoctorsAppointmentNotFound | backend/views.py:65-69 | another doctor's appointment gives 404 and is not changed |
| Views.ContentType | backend/views.py:117-127 | a non-empty guess wins; otherwise .html, .css, .js or octet-stream, the latter only for other endings |
| Views.FallbackTypes | backend/views.py:119-127 | without a guess, each known extension gets its type and `.txt` gets octet-stream |
| Views.ServeFrontendFileAsWritten | backend/views.py:101-131 | as written: served iff the target starts with the directory string and is a file |
| Views.SiblingDirectoryServed | backend/views.py:112-114 | `/srv/app/frontend_backup/secret.txt` is outside `/srv/app/frontend` yet passes the prefix test |
| Views.ServeFrontendFile | backend/views.py:101-131 | corrected: served iff the target is inside the directory and is a file, with the fallback content type |
| Views.CorrectionOnlyRejectsSiblings | backend/views.py:112-114 | the corrected view differs from the written one exactly on files outside the directory that share its prefix |
| Progress.MarkFor | frontend/js/progress.js:53-64 | an indicator is completed iff before the current step, active iff at it, plain iff after it |
| Progress.Marks | frontend/js/progress.js:50-64 | one mark per indicator |
| Progress.MarksShape | frontend/js/progress.js:53-64 | within range, exactly one indicator is active, those before are completed, those after plain |
| Progress.SecondGroupNumberedAfterFirst | frontend/js/progress.js:50-52 | the `.step1` group is marked as if alone; with 4 or more indicators in it, no `.step2` indicator is ever marked |
| Progress.ProgressBar.constructor | frontend/js/progress.js:2-16 | the page starts at step 1, drawn |
| Progress.ProgressBar.UpdateProgressBar | frontend/js/progress.js:37-87 | indicators marked by `Marks`; previous disabled iff step 1; next reads "Complete" and alerts iff on the last step |
| Progress.ProgressBar.SetCurrentStep | frontend/js/progress.js:6-11 | an in-range step is taken and drawn; another value changes nothing; the new step is `After` of the old step and the call |
| Progress.ProgressBar.GoToStep | frontend/js/progress.js:29-34 | an in-range step is taken and drawn; another value changes nothing; the new step is `After` of the old step and the call |
| Progress.ProgressBar.ChangeStep | frontend/js/progress.js:19-26 | moves by the direction iff the result is in range; otherwise changes nothing; the new step is `After` of the old step and the call |
| Progress.ProgressBar.ClickNext | frontend/js/progress.js:74-86 | on the last step the click alerts and changes nothing; before it advances one step |
| Progress.ProgressBar.AutoProgress | frontend/js/progress.js:90-97 | advances one step per tick and stops at step 4, after 4 minus the start ticks |
| Progress.StepAlwaysInRange | frontend/js/progress.js:2-34 | whatever the calls, the step stays within [1, 4] |
| Profile.JsPrefix | frontend/js/profile.js:276 | `substring(0, n)` has length n, or the whole length when shorter |
| Profile.MatchIsPrefix | frontend/js/profile.js:276 | the entry matches iff it starts with `name=`, and a match is `name=` followed by the value |
| Profile.TrimAll | frontend/js/profile.js:273-275 | one trimmed entry per `;`-separated piece |
| Profile.FirstMatch | frontend/js/profile.js:274-279 | the position of the first matching entry, none before it, and none iff no entry matches |
| Profile.GetCookie | frontend/js/profile.js:270-283 | the loop returns `CookieValue`: nothing for an empty cookie string, else the first match's value |
| Profile.LongerNameDoesNotMatch | frontend/js/profile.js:276 | `csrftoken2=abc` is not the cookie `csrftoken`; `csrftoken=abc` is, with value `abc` |
| Profile.FullName | frontend/js/profile.js:99-101 | never empty; 'User' iff the trimmed name is empty or is 'User' itself |
| Profile.MissingNameAndUserLookAlike | frontend/js/profile.js:101-131 | a missing name and the name "User" both display 'Not provided' and leave the edit field empty |
| Profile.SplitFullNameRejoins | frontend/js/profile.js:156-159 | with a space, first + " " + last is the trimmed name; without one, it is all first name; first is empty iff the name is blank |
| Profile.EditedNameShownBack | frontend/js/profile.js:99-101 | a saved non-blank name, stored as sent, is shown again as its trimmed form (split at lines 156-159) |
| Profile.Populate | frontend/js/profile.js:98-134 | header never empty; edit field empty iff header is 'User'; then display 'Not provided', else display = header = edit value |
| Profile.UpdateRequest | frontend/js/profile.js:156-173 | no request iff the trimmed name is blank; a request's first name is non-empty and has no space |
| Profile.ProfilePage.constructor | frontend/js/profile.js:7-8 | not editing, no data, still loading |
| Profile.ProfilePage.LoadUserProfile | frontend/js/profile.js:38-75 | a successful reply becomes the current data and is shown; a failure changes nothing |
| Profile.ProfilePage.ToggleEditMode | frontend/js/profile.js:137-152 | sets the editing flag and nothing else |
| Profile.ProfilePage.Cancel | frontend/js/profile.js:18-32 | leaves editing and shows the current data again |
| Profile.ProfilePage.SaveProfile | frontend/js/profile.js:154-223 | sends `UpdateRequest`; nothing changes without a request or on failure; success shows the reply and ends editing |
| Text.TrimStartSpec | frontend/js/profile.js:156 | the removed prefix is all spaces and the rest begins with a non-space |
| Text.TrimEndSpec | frontend/js/profile.js:156 | the removed suffix is all spaces and the rest ends with a non-space |
| Text.Lower | backend/admin.py:32-33 | lower-casing keeps the length and maps each character by itself |
| Text.Remove | backend/admin.py:32-33 | removing spaces leaves none, never lengthens, and changes nothing without one |
| Text.RemoveAppend | backend/admin.py:32-33 | removing from a concatenation is removing from each part, in order |
| Text.RemoveOne | backend/admin.py:32-33 | a single character is dropped iff it is the removed one |
| Text.RemoveCounts | backend/admin.py:32-33 | every character other than the removed one is kept, as often as before, and no other appears |
| Text.LowerAppend | backend/admin.py:32-33 | lower-casing distributes over concatenation |
| Text.LowerHasNoCapital | backend/admin.py:32-33 | a lower-cased string holds no capital letter |
| Text.Split | frontend/js/profile.js:157 | a split has at least one piece, no piece holds the separator, and exactly one piece iff the separator does not occur (also line 273) |
| Text.TrimSpec | backend/admin.py:99 | stripping leaves no space at either end and is empty iff the value is all spaces |
| Text.JoinSplit | frontend/js/profile.js:157-159 | joining the pieces of a split with the same separator gives the string back |
| Text.NatToStringInjective | backend/admin.py:48 | different ids give different decimal strings |

## Left out

- Threads, `time.sleep`, `join(timeout=10)` and daemon semantics. The scheduler loop is sequential.
  A `stop` from another thread is an input that says at which second of the wait it is seen.
- The delayed-start thread of the start-up hook. The model states the decision and the interval
  passed on.
- Time zones and sub-minute precision. `timezone.now()` and the naive appointment date and time
  are taken on one clock of whole minutes.
- The e-mail sender (`backend/email_utils.py` is not part of this model). Its k-th call is an input
  outcome: sent, not sent, or raised. The pass calls it with `async_send=False`. With
  `async_send=True` it would report success once the message is queued.
- Logging and console output. A write to the console that raises is not modelled either: the
  progress lines of the pass (send_appointment_reminders.py:78-81) lie outside the per-row `try`,
  and the success line (lines 101-103) comes after the save inside it. The model assumes these
  writes succeed.
- The ORM. Queries, `create_user`, `save` and `delete` are operations on maps and counters.
  Transactions and the admin's wrapping of exceptions into a `ValidationError` are not modelled.
- Password hashing. `create_user` and `set_password` store the password as given.
- Django's own field handling before the cleaners run: required checks, `max_length`, whitespace
  stripping of `CharField`s, and `EmailField` format.
- Unicode. `lower()`, `isalpha()`, `isdigit()`, `strip()` and `trim()` are modelled for ASCII only.
- Text.IsSpace: the whitespace of JavaScript's `trim()`. Python's `strip()` in the admin cleaners
  also removes the separators `\x1c` to `\x1f`, which the model treats as ordinary characters.
- Profile.DecodeURIComponent: the identity; percent-escapes are not decoded, and a malformed escape
  does not raise.
- The OS and the MIME table. `os.path.abspath`, `exists`, `isfile` and `mimetypes.guess_type` are
  inputs: a normalised target path, a flag, and an optional guess.
- The progress percentage (a floating-point width) and DOM elements that may be absent. The model
  assumes the buttons exist, and an indicator count stands for the two `querySelectorAll` lists.
- `setCurrentStep`, `goToStep` and `changeStep` with non-integer arguments.
- The `setInterval` timing of `autoProgress`. Its ticks are modelled as a loop.
- Profile.Populate: the locale formatting of the date of birth for display. The edit field keeps
  the raw value.
- The CSS display toggling in `toggleEditMode`, the save button's label, and the message banner.
- The redirect to the login page on a 401.
- The `@login_required` redirect of an anonymous caller of `update_appointment_status`
  (backend/views.py:53). The model starts from an authenticated caller.
- Registration.Save: of all the ways `save` can fail, only an exception from the patient creation
  is modelled, as the `profileFails` input.

## Findings

| source | as written | input that shows it | evidently intended | confidence | as-written member | corrected member |
|---|---|---|---|---|---|---|
| backend/admin.py:151-159 (also 383-391) | on edit, the username loop counts the edited user's own username as taken, so an unchanged name is always moved to a new one | patient 3 "Ann Lee" holding `ann_lee_3`: one save renames it to `ann_lee_3_1`, the next back to `ann_lee_3` | leave the user's own username out of the taken set, so an unchanged name keeps its username | high, not executed | AdminForms.EditTogglesUsername | AdminForms.EditedUsernameStable |
| backend/views.py:112-114 | containment is a plain string-prefix test on the absolute paths | directory `/srv/app/frontend`, request `../frontend_backup/secret.txt` resolves to `/srv/app/frontend_backup/secret.txt`, which is served | the target must be the directory or lie under `directory + "/"` | high, not executed | Views.SiblingDirectoryServed | Views.CorrectionOnlyRejectsSiblings |
