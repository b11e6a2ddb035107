/** The public sign-up form `CustomUserCreationForm` (backend/forms.py): its email check and its
    `save`, which creates the user, then the patient profile, then renames the user, and deletes the
    user again when the profile cannot be created. */
module Registration {
  import opened Wrappers
  import opened Models
  import opened Usernames

  /** The cleaned fields `save` reads. */
  datatype SignUpData = SignUpData(
    email: string, firstName: string, lastName: string, password: string, phone: string, dateOfBirth: Option<Date>)

  datatype SignUpError = EmailInUse | ProfileCreationFailed

  /** `clean_email`: rejected when any user at all holds the email. */
  function CleanEmail(email: string, users: map<nat, UserRecord>): (r: Result<string, SignUpError>)
    ensures r.Err? <==> exists id :: id in users && users[id].email == email
    ensures r.Err? ==> r.error == EmailInUse
    ensures r.Ok? ==> r.value == email
  {
    if exists id :: id in users && users[id].email == email then Err(EmailInUse) else Ok(email)
  }

  /** There is no exclusion of an existing account: every user's own email is rejected, and one
      that nobody holds is accepted. */
  lemma CleanEmailNoExclusion(users: map<nat, UserRecord>, id: nat, unused: string)
    requires id in users
    requires forall other :: other in users ==> users[other].email != unused
    ensures CleanEmail(users[id].email, users) == Err(EmailInUse)
    ensures CleanEmail(unused, users) == Ok(unused)
  {
  }

  /** `save(commit)`. `profileFails` stands for an exception out of `Patient.objects.create`; the
      user just created is then deleted and the error passed on. The user's key is used up either
      way, as an auto-increment key is. */
  method Save(db: AccountTables, data: SignUpData, commit: bool, profileFails: bool) returns (r: Result<nat, SignUpError>)
    requires db.Valid()
    modifies db
    ensures db.Valid()
    ensures db.nextUserId == old(db.nextUserId) + 1
    ensures DistinctUsernames(old(db.users)) ==> DistinctUsernames(db.users)
    ensures !commit ==>
              && r == Ok(old(db.nextUserId))
              && db.users == old(db.users)[r.value := UserRecord(
                   NewAccountUsername(false, data.firstName, data.lastName, TakenUsernames(old(db.users)), None),
                   data.email, data.firstName, data.lastName, data.password)]
              && db.patients == old(db.patients)
    ensures commit && profileFails ==>
              && r == Err(ProfileCreationFailed)
              && db.users == old(db.users) && db.patients == old(db.patients)
    ensures commit && !profileFails ==>
              && r == Ok(old(db.nextUserId))
              && db.users == old(db.users)[r.value := UserRecord(
                   NewAccountUsername(false, data.firstName, data.lastName, TakenUsernames(old(db.users)), Some(old(db.nextPatientId))),
                   data.email, data.firstName, data.lastName, data.password)]
              && db.patients == old(db.patients)[old(db.nextPatientId) := PatientRecord(r.value, data.phone, data.dateOfBirth)]
    ensures db.doctors == old(db.doctors)
  {
    ghost var users0 := db.users;
    ghost var taken0 := TakenUsernames(db.users);
    var userId := CreateUserWithUniqueName(db, PatientBase(data.firstName, data.lastName, 0),
                                           data.email, data.firstName, data.lastName, data.password);
    if !commit {
      return Ok(userId);
    }
    if profileFails {
      db.DeleteUser(userId);
      assert db.users == users0;
      return Err(ProfileCreationFailed);
    }
    ghost var nameBased := db.users[userId].username;
    assert TakenUsernames(db.users) == taken0 + {nameBased};
    var pid := db.CreatePatient(PatientRecord(userId, data.phone, data.dateOfBirth));
    RenameToUnique(db, userId, PatientBase(data.firstName, data.lastName, pid));
    r := Ok(userId);
  }
}
