/** The clinic's records (backend/models.py) and the in-memory tables that stand for the database.
    Instants are whole minutes since an epoch; a calendar day is a day number, a time of day a
    minute in [0, 1440). */
module Models {
  import opened Wrappers
  import opened Text

  // ---------------------------------------------------------------------------
  // Clock

  const MinutesPerDay: int := 1440

  predicate ValidTimeOfDay(m: int) {
    0 <= m < MinutesPerDay
  }

  /** `instant.date()`: the day an instant falls on (floor division, as for Python datetimes). */
  function Day(t: int): int {
    t / MinutesPerDay
  }

  /** `instant.time()`: the minute of its day. */
  function TimeOfDay(t: int): (m: int)
    ensures ValidTimeOfDay(m)
  {
    t % MinutesPerDay
  }

  /** `datetime.combine(date, time)`. */
  function Combine(date: int, time: int): int {
    date * MinutesPerDay + time
  }

  /** Splitting a combined instant gives back its date and time. */
  lemma CombineSplits(date: int, time: int)
    requires ValidTimeOfDay(time)
    ensures Day(Combine(date, time)) == date
    ensures TimeOfDay(Combine(date, time)) == time
  {
  }

  /** Every instant is the combination of its own date and time. */
  lemma SplitCombines(t: int)
    ensures Combine(Day(t), TimeOfDay(t)) == t
  {
  }

  // ---------------------------------------------------------------------------
  // Appointments

  datatype Status = Scheduled | Confirmed | Completed | Cancelled

  /** The stored value of each entry of `Appointment.STATUS_CHOICES`. */
  function StatusName(s: Status): string {
    match s
    case Scheduled => "scheduled"
    case Confirmed => "confirmed"
    case Completed => "completed"
    case Cancelled => "cancelled"
  }

  /** The status a stored or posted string names, if it is one of the four choices. */
  function ParseStatus(s: string): (r: Option<Status>)
    ensures r.Some? ==> StatusName(r.value) == s
  {
    if s == "scheduled" then Some(Scheduled)
    else if s == "confirmed" then Some(Confirmed)
    else if s == "completed" then Some(Completed)
    else if s == "cancelled" then Some(Cancelled)
    else None
  }

  /** Every status is recognised from its own name, so the four names are distinct. */
  lemma ParseStatusName(s: Status)
    ensures ParseStatus(StatusName(s)) == Some(s)
  {
  }

  datatype Appointment = Appointment(
    id: nat,
    date: int,            // day number
    time: int,            // minute of the day
    status: Status,
    reminderSent: bool,
    doctor: nat,          // id of the Doctor row
    patient: nat          // id of the Patient row
  )

  /** A freshly created appointment: the field defaults of the model. */
  function NewAppointment(id: nat, date: int, time: int, doctor: nat, patient: nat): (a: Appointment)
    ensures a.status == Scheduled && !a.reminderSent
    ensures a.id == id && a.date == date && a.time == time && a.doctor == doctor && a.patient == patient
  {
    Appointment(id, date, time, Scheduled, false, doctor, patient)
  }

  /** `Appointment.appointment_datetime`: the instant at which the appointment starts. */
  function AppointmentDateTime(a: Appointment): (t: int)
    ensures ValidTimeOfDay(a.time) ==> Day(t) == a.date && TimeOfDay(t) == a.time
  {
    Combine(a.date, a.time)
  }

  // ---------------------------------------------------------------------------
  // Users and profiles

  datatype UserRecord = UserRecord(username: string, email: string, firstName: string, lastName: string, password: string)

  /** Which profile rows point at a user: `hasattr(user, 'doctor')`, `hasattr(user, 'patient')`. */
  datatype Roles = Roles(isDoctor: bool, isPatient: bool)

  /** `User.user_type`. */
  function UserType(roles: Roles): (r: string)
    ensures r == "doctor" <==> roles.isDoctor
    ensures r == "patient" <==> !roles.isDoctor && roles.isPatient
    ensures r == "user" <==> !roles.isDoctor && !roles.isPatient
  {
    if roles.isDoctor then "doctor" else if roles.isPatient then "patient" else "user"
  }

  /** `Patient.full_name`. */
  function PatientFullName(u: UserRecord): string {
    u.firstName + " " + u.lastName
  }

  /** `Doctor.full_name`. */
  function DoctorFullName(u: UserRecord): string {
    "Dr. " + u.firstName + " " + u.lastName
  }

  /** `User.profile_name`. */
  function ProfileName(u: UserRecord, roles: Roles): string {
    if roles.isDoctor then "Dr. " + u.firstName + " " + u.lastName
    else if roles.isPatient then u.firstName + " " + u.lastName
    else u.firstName + " " + u.lastName
  }

  /** The profile name of a doctor is the doctor's full name; anyone else's is the plain full name,
      and the doctor's form is the plain one behind the prefix "Dr. ". */
  lemma ProfileNameIsFullName(u: UserRecord, roles: Roles)
    ensures ProfileName(u, roles) == if roles.isDoctor then DoctorFullName(u) else PatientFullName(u)
    ensures DoctorFullName(u) == "Dr. " + PatientFullName(u)
    ensures roles.isDoctor ==> StartsWith(ProfileName(u, roles), "Dr. ")
  {
    assert "Dr. " + u.firstName + " " + u.lastName == "Dr. " + (u.firstName + " " + u.lastName);
  }

  /** A calendar date, as held by `Patient.date_of_birth` and returned by `date.today()`. */
  datatype Date = Date(year: int, month: int, day: int)

  /** Lexicographic order on (month, day), as Python compares the two tuples. */
  predicate MonthDayBefore(a: Date, b: Date) {
    a.month < b.month || (a.month == b.month && a.day < b.day)
  }

  /** Lexicographic order on whole dates. */
  predicate DateAtMost(a: Date, b: Date) {
    a.year < b.year || (a.year == b.year && (MonthDayBefore(a, b) || (a.month == b.month && a.day == b.day)))
  }

  /** `Patient.age` on the day `today`. */
  function Age(dateOfBirth: Option<Date>, today: Date): (r: Option<int>)
    ensures r.None? <==> dateOfBirth.None?
  {
    match dateOfBirth
    case None => None
    case Some(dob) => Some(today.year - dob.year - (if MonthDayBefore(today, dob) then 1 else 0))
  }

  /** Nobody born on or before today has a negative age. */
  lemma AgeNonNegative(dob: Date, today: Date)
    requires DateAtMost(dob, today)
    ensures Age(Some(dob), today).value >= 0
  {
  }

  /** On the n-th birthday the age is exactly n. */
  lemma AgeOnBirthday(dob: Date, n: int)
    ensures Age(Some(dob), Date(dob.year + n, dob.month, dob.day)) == Some(n)
  {
  }

  /** Within one year, every day before the birthday gives one year less than the birthday itself:
      the age goes up by exactly one on the birthday. */
  lemma AgeStepsOnBirthday(dob: Date, before: Date)
    requires MonthDayBefore(before, dob)
    ensures Age(Some(dob), Date(before.year, dob.month, dob.day)).value == Age(Some(dob), before).value + 1
  {
  }

  /** The age never goes down as time goes forward. */
  lemma AgeMonotone(dob: Date, d1: Date, d2: Date)
    requires DateAtMost(d1, d2)
    ensures Age(Some(dob), d1).value <= Age(Some(dob), d2).value
  {
  }

  datatype PatientRecord = PatientRecord(user: nat, phone: string, dateOfBirth: Option<Date>)
  datatype DoctorRecord = DoctorRecord(user: nat, speciality: string, phone: string, licenseNumber: string)

  /** The usernames held by the users of a table: what `User.objects.filter(username=...).exists()`
      looks up. */
  function TakenUsernames(users: map<nat, UserRecord>): set<string>
  {
    set id | id in users :: users[id].username
  }

  /** Writing one user's row: the names held become those of the other users plus the new one. */
  lemma TakenUsernamesUpdate(users: map<nat, UserRecord>, id: nat, u: UserRecord)
    ensures TakenUsernames(users[id := u]) == TakenUsernames(users - {id}) + {u.username}
  {
    var users' := users[id := u];
    forall n | n in TakenUsernames(users - {id}) ensures n in TakenUsernames(users') {
      var k :| k in users - {id} && (users - {id})[k].username == n;
      assert users'[k] == users[k];
    }
    forall n | n in TakenUsernames(users') ensures n in TakenUsernames(users - {id}) + {u.username} {
      var k :| k in users' && users'[k].username == n;
      if k != id {
        assert k in users - {id} && (users - {id})[k] == users'[k];
      }
    }
    assert u.username == users'[id].username;
  }

  lemma TakenUsernamesEmpty()
    ensures TakenUsernames(map[]) == {}
  {
  }

  /** No two users share a username (the unique constraint on `User.username`). */
  predicate DistinctUsernames(users: map<nat, UserRecord>) {
    forall i, j :: i in users && j in users && i != j ==> users[i].username != users[j].username
  }

  /** Replacing one user's username by a name no other user holds keeps usernames distinct. */
  lemma {:induction false} DistinctAfterRename(users: map<nat, UserRecord>, id: nat, u: UserRecord)
    requires DistinctUsernames(users - {id})
    requires u.username !in TakenUsernames(users - {id})
    ensures DistinctUsernames(users[id := u])
  {
    var users' := users[id := u];
    forall i, j | i in users' && j in users' && i != j
      ensures users'[i].username != users'[j].username
    {
      if i == id {
        assert j in users - {id} && (users - {id})[j] == users'[j];
      } else if j == id {
        assert i in users - {id} && (users - {id})[i] == users'[i];
      } else {
        assert (users - {id})[i] == users'[i] && (users - {id})[j] == users'[j];
      }
    }
  }

  lemma DistinctWithout(users: map<nat, UserRecord>, id: nat)
    requires DistinctUsernames(users)
    ensures DistinctUsernames(users - {id})
  {
  }

  // ---------------------------------------------------------------------------
  // Tables

  /** The user, patient and doctor tables, keyed by primary key, with their auto-increment counters. */
  class AccountTables {
    var users: map<nat, UserRecord>
    var patients: map<nat, PatientRecord>
    var doctors: map<nat, DoctorRecord>
    var nextUserId: nat
    var nextPatientId: nat
    var nextDoctorId: nat

    /** Primary keys start at 1 and lie below the next key to be handed out. */
    ghost predicate Valid()
      reads this
    {
      && 1 <= nextUserId && 1 <= nextPatientId && 1 <= nextDoctorId
      && (forall id :: id in users ==> 1 <= id < nextUserId)
      && (forall id :: id in patients ==> 1 <= id < nextPatientId)
      && (forall id :: id in doctors ==> 1 <= id < nextDoctorId)
    }

    constructor ()
      ensures Valid()
      ensures users == map[] && patients == map[] && doctors == map[]
    {
      users, patients, doctors := map[], map[], map[];
      nextUserId, nextPatientId, nextDoctorId := 1, 1, 1;
    }

    /** `User.objects.create_user`: a new row under the next key. */
    method CreateUser(u: UserRecord) returns (id: nat)
      requires Valid()
      modifies this
      ensures Valid()
      ensures id == old(nextUserId) && id !in old(users) && id >= 1
      ensures users == old(users)[id := u] && nextUserId == old(nextUserId) + 1
      ensures patients == old(patients) && doctors == old(doctors)
      ensures nextPatientId == old(nextPatientId) && nextDoctorId == old(nextDoctorId)
    {
      id := nextUserId;
      users := users[id := u];
      nextUserId := nextUserId + 1;
    }

    /** `user.delete()`. The auto-increment counter is not given back. */
    method DeleteUser(id: nat)
      requires Valid()
      modifies this
      ensures Valid()
      ensures users == old(users) - {id}
      ensures patients == old(patients) && doctors == old(doctors)
      ensures nextUserId == old(nextUserId) && nextPatientId == old(nextPatientId) && nextDoctorId == old(nextDoctorId)
    {
      users := users - {id};
    }

    /** `user.save()` of an existing row with new field values. */
    method UpdateUser(id: nat, u: UserRecord)
      requires Valid() && id in users
      modifies this
      ensures Valid()
      ensures users == old(users)[id := u]
      ensures patients == old(patients) && doctors == old(doctors)
      ensures nextUserId == old(nextUserId) && nextPatientId == old(nextPatientId) && nextDoctorId == old(nextDoctorId)
    {
      users := users[id := u];
    }

    /** `patient.save()` of an existing row. */
    method UpdatePatient(id: nat, p: PatientRecord)
      requires Valid() && id in patients
      modifies this
      ensures Valid()
      ensures patients == old(patients)[id := p]
      ensures users == old(users) && doctors == old(doctors)
      ensures nextUserId == old(nextUserId) && nextPatientId == old(nextPatientId) && nextDoctorId == old(nextDoctorId)
    {
      patients := patients[id := p];
    }

    /** `doctor.save()` of an existing row. */
    method UpdateDoctor(id: nat, d: DoctorRecord)
      requires Valid() && id in doctors
      modifies this
      ensures Valid()
      ensures doctors == old(doctors)[id := d]
      ensures users == old(users) && patients == old(patients)
      ensures nextUserId == old(nextUserId) && nextPatientId == old(nextPatientId) && nextDoctorId == old(nextDoctorId)
    {
      doctors := doctors[id := d];
    }

    /** `Patient.objects.create(...)` / `patient.save()` of a new row. */
    method CreatePatient(p: PatientRecord) returns (id: nat)
      requires Valid()
      modifies this
      ensures Valid()
      ensures id == old(nextPatientId) && id !in old(patients) && id >= 1
      ensures patients == old(patients)[id := p] && nextPatientId == old(nextPatientId) + 1
      ensures users == old(users) && doctors == old(doctors)
      ensures nextUserId == old(nextUserId) && nextDoctorId == old(nextDoctorId)
    {
      id := nextPatientId;
      patients := patients[id := p];
      nextPatientId := nextPatientId + 1;
    }

    /** `doctor.save()` of a new row. */
    method CreateDoctor(d: DoctorRecord) returns (id: nat)
      requires Valid()
      modifies this
      ensures Valid()
      ensures id == old(nextDoctorId) && id !in old(doctors) && id >= 1
      ensures doctors == old(doctors)[id := d] && nextDoctorId == old(nextDoctorId) + 1
      ensures users == old(users) && patients == old(patients)
      ensures nextUserId == old(nextUserId) && nextPatientId == old(nextPatientId)
    {
      id := nextDoctorId;
      doctors := doctors[id := d];
      nextDoctorId := nextDoctorId + 1;
    }
  }

  /** The appointment table, in the order in which the database returns its rows. */
  class AppointmentTable {
    var rows: seq<Appointment>

    constructor (rows: seq<Appointment>)
      ensures this.rows == rows
    {
      this.rows := rows;
    }
  }
}
