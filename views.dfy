/** Two views of backend/views.py: the doctor-only appointment status update, and the serving of
    files from the frontend directory (its containment check and its content-type fallback). */
module Views {
  import opened Wrappers
  import opened Text
  import opened Models

  // ---------------------------------------------------------------------------
  // update_appointment_status

  datatype HttpMethod = Get | Post | OtherMethod

  /** `get_object_or_404(Appointment, id=appointmentId, doctor=doctor)`: the position of the row
      with that id whose doctor is `doctor`, if any (the first one, should ids repeat). */
  function FindOwned(rows: seq<Appointment>, appointmentId: nat, doctor: nat): (r: Option<nat>)
    ensures r.Some? ==> r.value < |rows| && rows[r.value].id == appointmentId && rows[r.value].doctor == doctor
    ensures r.Some? ==> forall k :: 0 <= k < r.value ==> !(rows[k].id == appointmentId && rows[k].doctor == doctor)
    ensures r.None? <==> forall k :: 0 <= k < |rows| ==> !(rows[k].id == appointmentId && rows[k].doctor == doctor)
  {
    if |rows| == 0 then None
    else if rows[0].id == appointmentId && rows[0].doctor == doctor then Some(0)
    else match FindOwned(rows[1..], appointmentId, doctor)
      case None => None
      case Some(i) => Some(i + 1)
  }

  /** The reply of `update_appointment_status` and the appointment table after it. `callerDoctor`
      is the caller's Doctor row, `None` when the caller has none; `posted` is the `status` form
      field, `None` when absent. */
  function StatusUpdate(rows: seq<Appointment>, callerDoctor: Option<nat>, appointmentId: nat, verb: HttpMethod, posted: Option<string>)
    : (int, seq<Appointment>)
  {
    if callerDoctor.None? then (403, rows)
    else match FindOwned(rows, appointmentId, callerDoctor.value)
      case None => (404, rows)
      case Some(i) =>
        if verb != Post then (405, rows)
        else if posted.None? || ParseStatus(posted.value).None? then (400, rows)
        else (200, rows[i := rows[i].(status := ParseStatus(posted.value).value)])
  }

  /** The view: the 403, 404, 405 and 400 replies change nothing; a valid POST stores the status. */
  method UpdateAppointmentStatus(table: AppointmentTable, callerDoctor: Option<nat>, appointmentId: nat, verb: HttpMethod, posted: Option<string>)
    returns (code: int)
    modifies table
    ensures (code, table.rows) == StatusUpdate(old(table.rows), callerDoctor, appointmentId, verb, posted)
  {
    if callerDoctor.None? {
      return 403;
    }
    var found := FindOwned(table.rows, appointmentId, callerDoctor.value);
    if found.None? {
      return 404;
    }
    if verb != Post {
      return 405;
    }
    if posted.None? {
      return 400;
    }
    var status := ParseStatus(posted.value);
    if status.None? {
      return 400;
    }
    var i := found.value;
    table.rows := table.rows[i := table.rows[i].(status := status.value)];
    code := 200;
  }

  /** Every reply but 200 leaves the table as it was, and a caller without a doctor profile always
      gets 403. */
  lemma ErrorRepliesChangeNothing(rows: seq<Appointment>, callerDoctor: Option<nat>, appointmentId: nat, verb: HttpMethod, posted: Option<string>)
    ensures var (code, rows') := StatusUpdate(rows, callerDoctor, appointmentId, verb, posted);
            && code in {200, 400, 403, 404, 405}
            && (code != 200 ==> rows' == rows)
            && (callerDoctor.None? ==> code == 403)
            && (code == 200 <==> callerDoctor.Some? && FindOwned(rows, appointmentId, callerDoctor.value).Some?
                                 && verb == Post && posted.Some? && ParseStatus(posted.value).Some?)
  {
  }

  /** A 200 changes exactly one row, one the caller is the doctor of and which has the requested
      id, and in it only the status, to the posted one. */
  lemma SuccessChangesOnlyOwnRowStatus(rows: seq<Appointment>, doctor: nat, appointmentId: nat, posted: string)
    requires StatusUpdate(rows, Some(doctor), appointmentId, Post, Some(posted)).0 == 200
    ensures var rows' := StatusUpdate(rows, Some(doctor), appointmentId, Post, Some(posted)).1;
            && |rows'| == |rows|
            && exists i :: 0 <= i < |rows| && rows[i].id == appointmentId && rows[i].doctor == doctor
                 && rows' == rows[i := rows[i].(status := ParseStatus(posted).value)]
                 && StatusName(rows'[i].status) == posted
  {
    var i := FindOwned(rows, appointmentId, doctor).value;
    assert StatusUpdate(rows, Some(doctor), appointmentId, Post, Some(posted)).1 == rows[i := rows[i].(status := ParseStatus(posted).value)];
  }

  /** There is no transition rule: a posted status name is stored whatever the current status. */
  lemma AnyStatusFromAnyStatus(rows: seq<Appointment>, doctor: nat, appointmentId: nat, s: Status)
    requires FindOwned(rows, appointmentId, doctor).Some?
    ensures var i := FindOwned(rows, appointmentId, doctor).value;
            var (code, rows') := StatusUpdate(rows, Some(doctor), appointmentId, Post, Some(StatusName(s)));
            code == 200 && rows'[i].status == s
  {
    ParseStatusName(s);
  }

  /** Another doctor's appointment is never found, so it is never changed: the reply is 404. */
  lemma OtherDoctorsAppointmentNotFound(rows: seq<Appointment>, doctor: nat, appointmentId: nat, verb: HttpMethod, posted: Option<string>)
    requires forall k :: 0 <= k < |rows| && rows[k].id == appointmentId ==> rows[k].doctor != doctor
    ensures StatusUpdate(rows, Some(doctor), appointmentId, verb, posted) == (404, rows)
  {
  }

  // ---------------------------------------------------------------------------
  // serve_frontend_file

  /** What the view answers: the file with a content type, or "File not found". */
  datatype FileReply = Serve(path: string, contentType: string) | NotFound

  /** The content type: the guess from the file name when it is given and non-empty, else a
      fallback from the requested path's extension. */
  function ContentType(guessed: Option<string>, filePath: string): (r: string)
    ensures guessed.Some? && guessed.value != "" ==> r == guessed.value
    ensures (guessed.None? || guessed.value == "") ==>
              r in {"text/html", "text/css", "application/javascript", "application/octet-stream"}
    ensures (guessed.None? || guessed.value == "") && r == "application/octet-stream" ==>
              !EndsWith(filePath, ".html") && !EndsWith(filePath, ".css") && !EndsWith(filePath, ".js")
  {
    if guessed.Some? && guessed.value != "" then guessed.value
    else if EndsWith(filePath, ".html") then "text/html"
    else if EndsWith(filePath, ".css") then "text/css"
    else if EndsWith(filePath, ".js") then "application/javascript"
    else "application/octet-stream"
  }

  /** A string with a given ending ends with that ending's last two characters. */
  lemma LastTwoChars(s: string, suffix: string)
    ensures EndsWith(s, suffix) && |suffix| >= 2 ==> s[|s| - 1] == suffix[|suffix| - 1] && s[|s| - 2] == suffix[|suffix| - 2]
  {
    if EndsWith(s, suffix) && |suffix| >= 2 {
      assert s[|s| - |suffix|..][|suffix| - 1] == s[|s| - 1];
      assert s[|s| - |suffix|..][|suffix| - 2] == s[|s| - 2];
    }
  }

  /** Without a guess, each of the three known extensions gets its type. */
  lemma FallbackTypes(stem: string)
    ensures ContentType(None, stem + ".html") == "text/html"
    ensures ContentType(None, stem + ".css") == "text/css"
    ensures ContentType(None, stem + ".js") == "application/javascript"
    ensures ContentType(Some(""), stem + ".txt") == "application/octet-stream"
  {
    var h, c, j, t := stem + ".html", stem + ".css", stem + ".js", stem + ".txt";
    assert h[|h| - 5..] == ".html";
    assert c[|c| - 4..] == ".css";
    assert j[|j| - 3..] == ".js";
    assert c[|c| - 1] == 's' && j[|j| - 1] == 's' && j[|j| - 2] == 'j' && t[|t| - 1] == 't';
    LastTwoChars(c, ".html");
    LastTwoChars(j, ".html");
    LastTwoChars(j, ".css");
    LastTwoChars(t, ".html");
    LastTwoChars(t, ".css");
    LastTwoChars(t, ".js");
  }

  /** The view as written. `frontendDir` and `target` are the absolute, normalised forms of the
      frontend directory and of the requested path; `isFile` says that the target exists and is a
      regular file; `guessed` is the guess of the MIME table. The containment test is a plain
      string prefix. */
  function ServeFrontendFileAsWritten(frontendDir: string, target: string, filePath: string, isFile: bool, guessed: Option<string>): (r: FileReply)
    ensures r.Serve? <==> StartsWith(target, frontendDir) && isFile
    ensures r.Serve? ==> r.path == target && r.contentType == ContentType(guessed, filePath)
  {
    if !StartsWith(target, frontendDir) then NotFound
    else if isFile then Serve(target, ContentType(guessed, filePath))
    else NotFound
  }

  /** A request for `/frontend/../frontend_backup/secret.txt` resolves to a sibling directory whose
      name begins with the frontend directory's name; the prefix test lets it through. */
  lemma SiblingDirectoryServed()
    ensures var dir := "/srv/app/frontend";
            var target := "/srv/app/frontend_backup/secret.txt";
            && !InsideDirectory(dir, target)
            && ServeFrontendFileAsWritten(dir, target, "../frontend_backup/secret.txt", true, Some("text/plain")).Serve?
  {
    var dir := "/srv/app/frontend";
    var target := "/srv/app/frontend_backup/secret.txt";
    assert target[..|dir|] == dir;
    assert target[..|dir| + 1] != dir + "/" by { assert target[|dir|] == '_'; }
  }

  /** A path lies inside a directory when it is the directory itself or continues it after a `/`. */
  predicate InsideDirectory(dir: string, path: string) {
    path == dir || StartsWith(path, dir + "/")
  }

  /** The view with the containment test it evidently intends: the target must lie inside the
      frontend directory, not merely start with the same characters. */
  function ServeFrontendFile(frontendDir: string, target: string, filePath: string, isFile: bool, guessed: Option<string>): (r: FileReply)
    ensures r.Serve? <==> InsideDirectory(frontendDir, target) && isFile
    ensures r.Serve? ==> r.path == target && r.contentType == ContentType(guessed, filePath)
  {
    if !InsideDirectory(frontendDir, target) then NotFound
    else if isFile then Serve(target, ContentType(guessed, filePath))
    else NotFound
  }

  /** The corrected view differs from the written one exactly on the sibling paths: those that
      start with the directory's characters without lying inside it. Everything inside is served
      by both. */
  lemma {:induction false} CorrectionOnlyRejectsSiblings(frontendDir: string, target: string, filePath: string, isFile: bool, guessed: Option<string>)
    ensures InsideDirectory(frontendDir, target) ==> StartsWith(target, frontendDir)
    ensures ServeFrontendFile(frontendDir, target, filePath, isFile, guessed) != ServeFrontendFileAsWritten(frontendDir, target, filePath, isFile, guessed)
            <==> isFile && StartsWith(target, frontendDir) && !InsideDirectory(frontendDir, target)
  {
    if StartsWith(target, frontendDir + "/") {
      assert target[..|frontendDir|] == (frontendDir + "/")[..|frontendDir|] == frontendDir;
    }
  }
}
