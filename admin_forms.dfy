/** The admin forms `PatientAdminForm` and `DoctorAdminForm` (backend/admin.py): their field
    cleaners and the account bookkeeping of their `save`. The two forms are the same code over a
    different profile; here they are one model over `ProfileData`. */
module AdminForms {
  import opened Wrappers
  import opened Text
  import opened Models
  import opened Usernames

  datatype FieldError =
    | EmailRequired | EmailTaken
    | PasswordRequired | PasswordTooShort | PasswordNoLetter | PasswordNoDigit
    | LicenseTaken
    | FirstNameTooShort | LastNameTooShort | PhoneTooShort | SpecialityTooShort

  /** The profile part of a form: the patient's or the doctor's own fields. */
  datatype ProfileData =
    | PatientData(phone: string, dateOfBirth: Option<Date>)
    | DoctorData(speciality: string, phone: string, licenseNumber: string)

  /** The cleaned data of a form. */
  datatype AdminFormData = AdminFormData(email: string, firstName: string, lastName: string, password: string, profile: ProfileData)

  // ---------------------------------------------------------------------------
  // Field cleaners

  /** `clean_email`: required, and held by no user other than the one being edited. */
  function CleanEmail(email: string, users: map<nat, UserRecord>, editingUser: Option<nat>): (r: Result<string, FieldError>)
    ensures r == Err(EmailRequired) <==> email == ""
    ensures r == Err(EmailTaken) <==>
              email != "" && exists id :: id in users && Some(id) != editingUser && users[id].email == email
    ensures r.Ok? ==> r.value == email
  {
    if email == "" then Err(EmailRequired)
    else if exists id :: id in users && Some(id) != editingUser && users[id].email == email then Err(EmailTaken)
    else Ok(email)
  }

  /** Editing a user who keeps their own email is accepted as long as nobody else holds it, while a
      new form with that same email is rejected. */
  lemma OwnEmailAcceptedOnEdit(users: map<nat, UserRecord>, id: nat)
    requires id in users && users[id].email != ""
    requires forall other :: other in users && other != id ==> users[other].email != users[id].email
    ensures CleanEmail(users[id].email, users, Some(id)) == Ok(users[id].email)
    ensures CleanEmail(users[id].email, users, None) == Err(EmailTaken)
  {
  }

  predicate HasLetter(s: string) {
    exists i :: 0 <= i < |s| && IsAsciiLetter(s[i])
  }

  predicate HasDigit(s: string) {
    exists i :: 0 <= i < |s| && IsAsciiDigit(s[i])
  }

  /** `clean_password`. A blank password is an error only on a new record; a given one must have at
      least 8 characters, a letter and a digit, checked in that order. */
  function CleanPassword(password: string, isNew: bool): (r: Result<string, FieldError>)
    ensures r.Ok? <==> (password == "" && !isNew) || (|password| >= 8 && HasLetter(password) && HasDigit(password))
    ensures r.Ok? ==> r.value == password
    ensures r == Err(PasswordRequired) <==> password == "" && isNew
    ensures r == Err(PasswordTooShort) <==> 0 < |password| < 8
    ensures r == Err(PasswordNoLetter) <==> |password| >= 8 && !HasLetter(password)
    ensures r == Err(PasswordNoDigit) <==> |password| >= 8 && HasLetter(password) && !HasDigit(password)
  {
    if isNew && password == "" then Err(PasswordRequired)
    else if password != "" && |password| < 8 then Err(PasswordTooShort)
    else if password != "" && !HasLetter(password) then Err(PasswordNoLetter)
    else if password != "" && !HasDigit(password) then Err(PasswordNoDigit)
    else Ok(password)
  }

  /** Length is checked first: a short password is reported as short even when it also lacks a
      letter or a digit; "abcdefgh" lacks only a digit; "abcdefg1" passes. */
  lemma PasswordCheckOrder()
    ensures CleanPassword("1234567", true) == Err(PasswordTooShort)
    ensures CleanPassword("12345678", false) == Err(PasswordNoLetter)
    ensures CleanPassword("abcdefgh", true) == Err(PasswordNoDigit)
    ensures CleanPassword("abcdefg1", true) == Ok("abcdefg1")
    ensures CleanPassword("", false) == Ok("")
  {
    assert IsAsciiDigit("abcdefg1"[7]);
    assert IsAsciiLetter("abcdefgh"[0]);
    assert IsAsciiLetter("abcdefg1"[0]);
    assert !HasDigit("abcdefgh") by {
      forall i | 0 <= i < 8 ensures !IsAsciiDigit("abcdefgh"[i]) {
      }
    }
    assert !HasLetter("12345678") by {
      forall i | 0 <= i < 8 ensures !IsAsciiLetter("12345678"[i]) {
      }
    }
  }

  /** `if value and len(value.strip()) < min`: given but too short once stripped. */
  predicate TooShort(value: string, min: nat) {
    value != "" && |Trim(value)| < min
  }

  /** Whether `clean` of either form adds `e`: the names need at least 2 characters, the patient's
      phone 10 and the doctor's speciality 3. The doctor form does not check the phone. */
  predicate Flagged(e: FieldError, first: string, last: string, profile: ProfileData) {
    match e
    case FirstNameTooShort => TooShort(first, 2)
    case LastNameTooShort => TooShort(last, 2)
    case PhoneTooShort => profile.PatientData? && TooShort(profile.phone, 10)
    case SpecialityTooShort => profile.DoctorData? && TooShort(profile.speciality, 3)
    case _ => false
  }

  /** The errors `clean` adds, one per field. */
  function CleanErrors(first: string, last: string, profile: ProfileData): (r: set<FieldError>)
    ensures forall e :: e in r <==> Flagged(e, first, last, profile)
  {
    set e | e in {FirstNameTooShort, LastNameTooShort, PhoneTooShort, SpecialityTooShort} && Flagged(e, first, last, profile)
  }

  /** The names: each is flagged when given but shorter than 2 once stripped; besides the names only
      the phone and the speciality can be flagged. */
  lemma CleanErrorsNames(first: string, last: string, profile: ProfileData)
    ensures FirstNameTooShort in CleanErrors(first, last, profile) <==> TooShort(first, 2)
    ensures LastNameTooShort in CleanErrors(first, last, profile) <==> TooShort(last, 2)
    ensures CleanErrors(first, last, profile) <= {FirstNameTooShort, LastNameTooShort, PhoneTooShort, SpecialityTooShort}
  {
  }

  /** The profile fields: only a patient's phone (under 10 once stripped) and only a doctor's
      speciality (under 3) are checked. */
  lemma CleanErrorsProfile(first: string, last: string, profile: ProfileData)
    ensures PhoneTooShort in CleanErrors(first, last, profile) <==> profile.PatientData? && TooShort(profile.phone, 10)
    ensures SpecialityTooShort in CleanErrors(first, last, profile) <==> profile.DoctorData? && TooShort(profile.speciality, 3)
  {
  }

  /** A value made only of spaces is given (non-empty) and strips to nothing, so it is always too
      short; an empty one is never flagged (the required check is the field's, not `clean`'s). */
  lemma BlankValueIsTooShort(s: string, min: nat)
    requires s != "" && AllSpace(s) && min >= 1
    ensures TooShort(s, min)
    ensures !TooShort("", min)
  {
    TrimSpec(s);
  }

  /** `clean_license_number`: a given number held by another doctor is rejected; the doctor being
      edited is excluded; an empty number is accepted. */
  function CleanLicenseNumber(license: string, doctors: map<nat, DoctorRecord>, editingDoctor: Option<nat>): (r: Result<string, FieldError>)
    ensures r.Err? <==>
              license != "" && exists id :: id in doctors && Some(id) != editingDoctor && doctors[id].licenseNumber == license
    ensures r.Err? ==> r.error == LicenseTaken
    ensures r.Ok? ==> r.value == license
  {
    if license != "" && exists id :: id in doctors && Some(id) != editingDoctor && doctors[id].licenseNumber == license then
      Err(LicenseTaken)
    else
      Ok(license)
  }

  // ---------------------------------------------------------------------------
  // Username on edit

  /** The edit branch of `save` as written: the generation loop runs over every username, the
      edited user's own included, and the result is applied when it differs from the current name
      and no other user holds it. */
  function EditedUsernameAsWritten(users: map<nat, UserRecord>, userId: nat, base: string): (r: string)
    requires userId in users
    ensures r == users[userId].username || r !in TakenUsernames(users)
  {
    var candidate := UniqueUsername(base, TakenUsernames(users));
    if candidate != users[userId].username && candidate !in TakenUsernames(users - {userId}) then candidate
    else users[userId].username
  }

  /** As written, the "not held by another user" test can never fail, and the user's name always
      changes: the candidate avoids every username, the user's own included. */
  lemma {:induction false} AsWrittenEditAlwaysRenames(users: map<nat, UserRecord>, userId: nat, base: string)
    requires userId in users
    ensures UniqueUsername(base, TakenUsernames(users)) !in TakenUsernames(users - {userId})
    ensures EditedUsernameAsWritten(users, userId, base) != users[userId].username
  {
    var taken := TakenUsernames(users);
    assert users[userId].username in taken;
  }

  /** A table holding one user: the only username taken is theirs, and without them it is empty. */
  lemma SingleUserTable(u: UserRecord)
    ensures TakenUsernames(map[1 := u]) == {u.username}
    ensures map[1 := u] - {1} == map[]
  {
    TakenUsernamesUpdate(map[], 1, u);
    TakenUsernamesEmpty();
  }

  /** Ann Lee's base with id 3. */
  lemma AnnLeeBase()
    ensures PatientBase("Ann", "Lee", 3) == "ann_lee_3"
  {
    assert Lower("Ann") == "ann";
    assert Lower("Lee") == "lee";
    assert NatToString(3) == "3";
  }

  /** The first suffixed form of a taken "ann_lee_3". */
  lemma AnnLeeSuffixed()
    ensures UniqueUsername("ann_lee_3", {"ann_lee_3"}) == "ann_lee_3_1"
  {
    assert NatToString(1) == "1";
    assert Suffixed("ann_lee_3", 1) == "ann_lee_3_1";
  }

  /** Saving the edit form of patient 3, Ann Lee, twice without changing anything: the username
      goes from "ann_lee_3" to "ann_lee_3_1" and back. */
  lemma {:induction false} EditTogglesUsername()
    ensures PatientBase("Ann", "Lee", 3) == "ann_lee_3"
    ensures var u := UserRecord("ann_lee_3", "ann@example.org", "Ann", "Lee", "secret12");
            var first := EditedUsernameAsWritten(map[1 := u], 1, "ann_lee_3");
            && first == "ann_lee_3_1"
            && EditedUsernameAsWritten(map[1 := u.(username := first)], 1, "ann_lee_3") == "ann_lee_3"
  {
    AnnLeeBase();
    AnnLeeSuffixed();
    var u := UserRecord("ann_lee_3", "ann@example.org", "Ann", "Lee", "secret12");
    SingleUserTable(u);
    var u2 := u.(username := "ann_lee_3_1");
    SingleUserTable(u2);
    TakenUsernamesEmpty();
  }

  /** The edit rule the code evidently intends: the loop leaves the edited user's own name out of
      the taken set, so an unchanged name keeps its username. */
  function EditedUsername(users: map<nat, UserRecord>, userId: nat, base: string): (r: string)
    requires userId in users
    ensures r !in TakenUsernames(users - {userId})
    ensures base !in TakenUsernames(users - {userId}) ==> r == base
  {
    UniqueUsername(base, TakenUsernames(users - {userId}))
  }

  /** With the corrected rule a second save with the same names changes nothing, and a user who
      holds the base name and shares it with nobody keeps it. */
  lemma {:induction false} EditedUsernameStable(users: map<nat, UserRecord>, userId: nat, base: string)
    requires userId in users
    ensures var r := EditedUsername(users, userId, base);
            EditedUsername(users[userId := users[userId].(username := r)], userId, base) == r
    ensures users[userId].username == base && base !in TakenUsernames(users - {userId}) ==>
              EditedUsername(users, userId, base) == users[userId].username
  {
    var r := EditedUsername(users, userId, base);
    var users' := users[userId := users[userId].(username := r)];
    assert users' - {userId} == users - {userId};
  }

  // ---------------------------------------------------------------------------
  // save

  /** `profile.save()` of the new patient or doctor row, pointing at `userId`. */
  method CreateProfile(db: AccountTables, userId: nat, profile: ProfileData) returns (pid: nat)
    requires db.Valid()
    modifies db
    ensures db.Valid()
    ensures db.users == old(db.users)
    ensures db.nextUserId == old(db.nextUserId)
    ensures profile.PatientData? ==>
              && pid == old(db.nextPatientId)
              && db.patients == old(db.patients)[pid := PatientRecord(userId, profile.phone, profile.dateOfBirth)]
              && db.doctors == old(db.doctors)
    ensures profile.DoctorData? ==>
              && pid == old(db.nextDoctorId)
              && db.doctors == old(db.doctors)[pid := DoctorRecord(userId, profile.speciality, profile.phone, profile.licenseNumber)]
              && db.patients == old(db.patients)
  {
    match profile {
      case PatientData(phone, dateOfBirth) =>
        pid := db.CreatePatient(PatientRecord(userId, phone, dateOfBirth));
      case DoctorData(speciality, phone, license) =>
        pid := db.CreateDoctor(DoctorRecord(userId, speciality, phone, license));
    }
  }

  /** The commit part of the create branch: the profile row, then the id-based username. */
  method FinishNew(db: AccountTables, userId: nat, data: AdminFormData) returns (pid: nat)
    requires db.Valid() && userId in db.users
    modifies db
    ensures db.Valid()
    ensures db.users == old(db.users)[userId := old(db.users)[userId].(username :=
              UniqueUsername(AccountBase(data.profile.DoctorData?, data.firstName, data.lastName, pid), TakenUsernames(old(db.users))))]
    ensures DistinctUsernames(old(db.users)) ==> DistinctUsernames(db.users)
    ensures data.profile.PatientData? ==>
              && pid == old(db.nextPatientId)
              && db.patients == old(db.patients)[pid := PatientRecord(userId, data.profile.phone, data.profile.dateOfBirth)]
              && db.doctors == old(db.doctors)
    ensures data.profile.DoctorData? ==>
              && pid == old(db.nextDoctorId)
              && db.doctors == old(db.doctors)[pid :=
                   DoctorRecord(userId, data.profile.speciality, data.profile.phone, data.profile.licenseNumber)]
              && db.patients == old(db.patients)
  {
    pid := CreateProfile(db, userId, data.profile);
    RenameToUnique(db, userId, AccountBase(data.profile.DoctorData?, data.firstName, data.lastName, pid));
  }

  /** The create branch of `save`: a user with the name-based username, then (on commit) the
      profile, then the id-based username; the final rename always happens, since the name-based
      username is itself taken by then. */
  method SaveNew(db: AccountTables, data: AdminFormData, commit: bool) returns (userId: nat, profileId: Option<nat>)
    requires db.Valid()
    modifies db
    ensures db.Valid()
    ensures userId == old(db.nextUserId) && userId !in old(db.users)
    ensures db.users == old(db.users)[userId := UserRecord(
              NewAccountUsername(data.profile.DoctorData?, data.firstName, data.lastName, TakenUsernames(old(db.users)), profileId),
              data.email, data.firstName, data.lastName, data.password)]
    ensures DistinctUsernames(old(db.users)) ==> DistinctUsernames(db.users)
    ensures !commit ==> profileId.None? && db.patients == old(db.patients) && db.doctors == old(db.doctors)
    ensures commit && data.profile.PatientData? ==>
              && profileId == Some(old(db.nextPatientId))
              && db.patients == old(db.patients)[profileId.value := PatientRecord(userId, data.profile.phone, data.profile.dateOfBirth)]
              && db.doctors == old(db.doctors)
    ensures commit && data.profile.DoctorData? ==>
              && profileId == Some(old(db.nextDoctorId))
              && db.doctors == old(db.doctors)[profileId.value :=
                   DoctorRecord(userId, data.profile.speciality, data.profile.phone, data.profile.licenseNumber)]
              && db.patients == old(db.patients)
  {
    ghost var taken0 := TakenUsernames(db.users);
    userId := CreateUserWithUniqueName(db, AccountBase(data.profile.DoctorData?, data.firstName, data.lastName, 0),
                                       data.email, data.firstName, data.lastName, data.password);
    if !commit {
      profileId := None;
      return;
    }
    ghost var users1 := db.users;
    ghost var nameBased := users1[userId].username;
    assert TakenUsernames(users1) == taken0 + {nameBased};
    var pid := FinishNew(db, userId, data);
    profileId := Some(pid);
    ghost var finalName := UniqueUsername(AccountBase(data.profile.DoctorData?, data.firstName, data.lastName, pid), taken0 + {nameBased});
    assert finalName == NewAccountUsername(data.profile.DoctorData?, data.firstName, data.lastName, taken0, profileId);
    assert db.users == users1[userId := users1[userId].(username := finalName)];
  }

  /** The profile row being edited and the user it belongs to. */
  ghost predicate EditsExisting(db: AccountTables, profile: ProfileData, profileId: nat)
    reads db
  {
    match profile
    case PatientData(_, _) => profileId in db.patients && db.patients[profileId].user in db.users
    case DoctorData(_, _, _) => profileId in db.doctors && db.doctors[profileId].user in db.users
  }

  function OwnerOf(db: AccountTables, profile: ProfileData, profileId: nat): nat
    reads db
    requires EditsExisting(db, profile, profileId)
  {
    if profile.PatientData? then db.patients[profileId].user else db.doctors[profileId].user
  }

  /** The writes of the edit branch of `save` once the username is chosen: the user's email and
      names are replaced, the password only when a new one is given, and the profile row is written
      on commit. */
  method WriteEdit(db: AccountTables, data: AdminFormData, profileId: nat, commit: bool, username: string) returns (userId: nat)
    requires db.Valid() && EditsExisting(db, data.profile, profileId)
    requires DistinctUsernames(db.users) ==> username !in TakenUsernames(db.users - {OwnerOf(db, data.profile, profileId)})
    modifies db
    ensures db.Valid()
    ensures userId == old(OwnerOf(db, data.profile, profileId))
    ensures db.users == old(db.users)[userId := UserRecord(username, data.email, data.firstName, data.lastName,
              if data.password == "" then old(db.users)[userId].password else data.password)]
    ensures DistinctUsernames(old(db.users)) ==> DistinctUsernames(db.users)
    ensures !commit ==> db.patients == old(db.patients) && db.doctors == old(db.doctors)
    ensures commit && data.profile.PatientData? ==>
              && db.patients == old(db.patients)[profileId := PatientRecord(userId, data.profile.phone, data.profile.dateOfBirth)]
              && db.doctors == old(db.doctors)
    ensures commit && data.profile.DoctorData? ==>
              && db.doctors == old(db.doctors)[profileId :=
                   DoctorRecord(userId, data.profile.speciality, data.profile.phone, data.profile.licenseNumber)]
              && db.patients == old(db.patients)
  {
    userId := OwnerOf(db, data.profile, profileId);
    var password := if data.password == "" then db.users[userId].password else data.password;
    ghost var users0 := db.users;
    db.UpdateUser(userId, UserRecord(username, data.email, data.firstName, data.lastName, password));
    if DistinctUsernames(users0) {
      DistinctWithout(users0, userId);
      DistinctAfterRename(users0, userId, db.users[userId]);
    }
    if commit {
      match data.profile {
        case PatientData(phone, dateOfBirth) =>
          db.UpdatePatient(profileId, PatientRecord(userId, phone, dateOfBirth));
        case DoctorData(speciality, phone, license) =>
          db.UpdateDoctor(profileId, DoctorRecord(userId, speciality, phone, license));
      }
    }
  }

  /** The edit branch of `save` as written: the username follows `EditedUsernameAsWritten`, which
      counts the user's own username as taken. */
  method SaveExistingAsWritten(db: AccountTables, data: AdminFormData, profileId: nat, commit: bool) returns (userId: nat)
    requires db.Valid() && EditsExisting(db, data.profile, profileId)
    modifies db
    ensures db.Valid()
    ensures userId == old(OwnerOf(db, data.profile, profileId))
    ensures db.users == old(db.users)[userId := UserRecord(
              EditedUsernameAsWritten(old(db.users), userId, AccountBase(data.profile.DoctorData?, data.firstName, data.lastName, profileId)),
              data.email, data.firstName, data.lastName,
              if data.password == "" then old(db.users)[userId].password else data.password)]
    ensures db.users[userId].username != old(db.users)[userId].username
    ensures DistinctUsernames(old(db.users)) ==> DistinctUsernames(db.users)
    ensures !commit ==> db.patients == old(db.patients) && db.doctors == old(db.doctors)
    ensures commit && data.profile.PatientData? ==>
              && db.patients == old(db.patients)[profileId := PatientRecord(userId, data.profile.phone, data.profile.dateOfBirth)]
              && db.doctors == old(db.doctors)
    ensures commit && data.profile.DoctorData? ==>
              && db.doctors == old(db.doctors)[profileId :=
                   DoctorRecord(userId, data.profile.speciality, data.profile.phone, data.profile.licenseNumber)]
              && db.patients == old(db.patients)
  {
    var owner := OwnerOf(db, data.profile, profileId);
    var base := AccountBase(data.profile.DoctorData?, data.firstName, data.lastName, profileId);
    var username := db.users[owner].username;
    var candidate := GenerateUniqueUsername(base, TakenUsernames(db.users));
    if candidate != username && candidate !in TakenUsernames(db.users - {owner}) {
      username := candidate;
    }
    AsWrittenEditAlwaysRenames(db.users, owner, base);
    userId := WriteEdit(db, data, profileId, commit, username);
  }

  /** The edit branch of `save` with the corrected username rule. */
  method SaveExisting(db: AccountTables, data: AdminFormData, profileId: nat, commit: bool) returns (userId: nat)
    requires db.Valid() && EditsExisting(db, data.profile, profileId)
    modifies db
    ensures db.Valid()
    ensures userId == old(OwnerOf(db, data.profile, profileId))
    ensures db.users == old(db.users)[userId := UserRecord(
              EditedUsername(old(db.users), userId, AccountBase(data.profile.DoctorData?, data.firstName, data.lastName, profileId)),
              data.email, data.firstName, data.lastName,
              if data.password == "" then old(db.users)[userId].password else data.password)]
    ensures DistinctUsernames(old(db.users)) ==> DistinctUsernames(db.users)
    ensures !commit ==> db.patients == old(db.patients) && db.doctors == old(db.doctors)
    ensures commit && data.profile.PatientData? ==>
              && db.patients == old(db.patients)[profileId := PatientRecord(userId, data.profile.phone, data.profile.dateOfBirth)]
              && db.doctors == old(db.doctors)
    ensures commit && data.profile.DoctorData? ==>
              && db.doctors == old(db.doctors)[profileId :=
                   DoctorRecord(userId, data.profile.speciality, data.profile.phone, data.profile.licenseNumber)]
              && db.patients == old(db.patients)
  {
    var owner := OwnerOf(db, data.profile, profileId);
    var username := GenerateUniqueUsername(AccountBase(data.profile.DoctorData?, data.firstName, data.lastName, profileId),
                                           TakenUsernames(db.users - {owner}));
    userId := WriteEdit(db, data, profileId, commit, username);
  }
}
