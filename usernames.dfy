/** Username generation, as written identically in `PatientAdminForm`, `DoctorAdminForm`
    (backend/admin.py) and `CustomUserCreationForm` (backend/forms.py): a base built from the names,
    then the first of base, base_1, base_2, ... that no user holds. */
module Usernames {
  import opened Wrappers
  import opened Text
  import opened Models

  /** `f"{base}_{counter}"`. */
  function Suffixed(base: string, k: nat): string {
    base + "_" + NatToString(k)
  }

  /** A name lower-cased with its spaces removed: `name.lower().replace(' ', '')`. */
  function CleanName(name: string): (r: string)
    ensures ' ' !in r
    ensures forall x :: x in r ==> !('A' <= x <= 'Z')
  {
    LowerHasNoCapital(name);
    RemoveCounts(Lower(name), ' ');
    Remove(Lower(name), ' ')
  }

  /** Cleaning keeps every character of the lower-cased name but the spaces, each as often. */
  lemma CleanNameCounts(name: string)
    ensures multiset(CleanName(name)) == multiset(Lower(name))[' ' := 0]
  {
    RemoveCounts(Lower(name), ' ');
  }

  /** A name without spaces is only lower-cased. */
  lemma CleanNameWithoutSpaces(name: string)
    requires ' ' !in name
    ensures CleanName(name) == Lower(name)
  {
    assert ' ' !in Lower(name) by {
      forall i | 0 <= i < |name| ensures Lower(name)[i] != ' ' {
        assert Lower(name)[i] == LowerChar(name[i]);
        assert name[i] != ' ';
      }
    }
  }

  /** The spaces of a name are dropped and the words around them kept in order:
      `CleanName("Mary Ann") == CleanName("Mary") + CleanName("Ann")`. */
  lemma CleanNameJoinsWords(a: string, b: string)
    ensures CleanName(a + " " + b) == CleanName(a) + CleanName(b)
  {
    var la, lb := Lower(a), Lower(b);
    assert Lower(a + " " + b) == la + " " + lb by {
      LowerAppend(a + " ", b);
      LowerAppend(a, " ");
      assert Lower(" ") == [LowerChar(' ')] + Lower([]);
    }
    calc {
      Remove(la + " " + lb, ' ');
      { RemoveAppend(la + " ", lb, ' '); }
      Remove(la + " ", ' ') + Remove(lb, ' ');
      { RemoveAppend(la, " ", ' '); RemoveOne(' ', ' '); }
      Remove(la, ' ') + Remove(lb, ' ');
    }
  }

  /** The base of a patient's username: `first_last`, or `first_last_id` when an id is given
      (an id of 0 is falsy in Python and counts as none). */
  function PatientBase(first: string, last: string, id: nat): string {
    var names := CleanName(first) + "_" + CleanName(last);
    if id != 0 then names + "_" + NatToString(id) else names
  }

  /** The base of a doctor's username: the patient form behind the prefix `dr_`. */
  function DoctorBase(first: string, last: string, id: nat): (r: string)
    ensures StartsWith(r, "dr_")
  {
    "dr_" + PatientBase(first, last, id)
  }

  /** The base for a doctor's or a patient's account. */
  function AccountBase(isDoctor: bool, first: string, last: string, id: nat): (r: string)
    ensures isDoctor ==> StartsWith(r, "dr_")
  {
    if isDoctor then DoctorBase(first, last, id) else PatientBase(first, last, id)
  }

  /** The id-based base is the name-based base with the id appended, as a suffix would be. */
  lemma IdBaseIsSuffixed(first: string, last: string, id: nat)
    requires id != 0
    ensures PatientBase(first, last, id) == Suffixed(PatientBase(first, last, 0), id)
  {
  }

  lemma {:induction false} SuffixedInjective(base: string, j: nat, k: nat)
    requires Suffixed(base, j) == Suffixed(base, k)
    ensures j == k
  {
    var sj, sk := Suffixed(base, j), Suffixed(base, k);
    assert NatToString(j) == sj[|base| + 1..];
    assert NatToString(k) == sk[|base| + 1..];
    NatToStringInjective(j, k);
  }

  /** The names base_1 ... base_k. */
  function SuffixRange(base: string, k: nat): set<string> {
    set j | 1 <= j <= k :: Suffixed(base, j)
  }

  /** The names base_1 ... base_k are those up to k - 1 and base_k, which is new among them. */
  lemma SuffixRangeStep(base: string, k: nat)
    requires k >= 1
    ensures SuffixRange(base, k) == SuffixRange(base, k - 1) + {Suffixed(base, k)}
    ensures Suffixed(base, k) !in SuffixRange(base, k - 1)
  {
    forall n | n in SuffixRange(base, k) ensures n in SuffixRange(base, k - 1) + {Suffixed(base, k)} {
      var j :| 1 <= j <= k && Suffixed(base, j) == n;
      if j < k {
        assert n in SuffixRange(base, k - 1);
      }
    }
    if Suffixed(base, k) in SuffixRange(base, k - 1) {
      var j :| 1 <= j <= k - 1 && Suffixed(base, j) == Suffixed(base, k);
      SuffixedInjective(base, j, k);
    }
  }

  lemma {:induction false} SuffixRangeSize(base: string, k: nat)
    ensures |SuffixRange(base, k)| == k
    ensures base !in SuffixRange(base, k)
  {
    if k > 0 {
      SuffixRangeSize(base, k - 1);
      SuffixRangeStep(base, k);
      assert |Suffixed(base, k)| > |base|;
    } else {
      assert SuffixRange(base, 0) == {};
    }
  }

  /** If base_1 ... base_k are all taken, there are at least k taken names (one more with the base). */
  lemma TakenBound(base: string, taken: set<string>, k: nat, baseTaken: bool)
    requires forall j :: 1 <= j <= k ==> Suffixed(base, j) in taken
    requires baseTaken ==> base in taken
    ensures |taken| >= k + (if baseTaken then 1 else 0)
  {
    SuffixRangeSize(base, k);
    var range := SuffixRange(base, k);
    assert range <= taken;
    if baseTaken {
      var s := range + {base};
      assert |s| == k + 1;
      assert s <= taken;
      SubsetSize(s, taken);
    } else {
      SubsetSize(range, taken);
    }
  }

  lemma SubsetSize<T>(a: set<T>, b: set<T>)
    requires a <= b
    ensures |a| <= |b|
  {
    assert b == a + (b - a);
  }

  /** The first free name among base_k, base_(k+1), ..., given that base_1 ... base_(k-1) are taken. */
  function FirstFreeFrom(base: string, taken: set<string>, k: nat): (r: string)
    requires k >= 1
    requires forall j :: 1 <= j < k ==> Suffixed(base, j) in taken
    ensures r !in taken
    ensures exists n :: k <= n && r == Suffixed(base, n) && forall j :: 1 <= j < n ==> Suffixed(base, j) in taken
    decreases |taken| + 1 - k
  {
    if Suffixed(base, k) !in taken then
      Suffixed(base, k)
    else
      TakenBound(base, taken, k, false);
      FirstFreeFrom(base, taken, k + 1)
  }

  /** The name the generation loop settles on: the base if it is free, else base_k for the smallest
      k >= 1 with base_k free. */
  function UniqueUsername(base: string, taken: set<string>): (r: string)
    ensures r !in taken
    ensures base !in taken ==> r == base
    ensures base in taken ==>
              exists k :: 1 <= k && r == Suffixed(base, k) && forall j :: 1 <= j < k ==> Suffixed(base, j) in taken
  {
    if base !in taken then base else FirstFreeFrom(base, taken, 1)
  }

  /** `generate_unique_username`'s loop: `User.objects.filter(username=username).exists()` is
      membership in `taken`, the usernames of every user in the table. */
  method GenerateUniqueUsername(base: string, taken: set<string>) returns (username: string)
    ensures username == UniqueUsername(base, taken)
  {
    username := base;
    var counter: nat := 1;
    while username in taken
      invariant counter >= 1
      invariant counter == 1 ==> username == base
      invariant counter > 1 ==> base in taken && username == Suffixed(base, counter - 1)
      invariant forall j :: 1 <= j < counter - 1 ==> Suffixed(base, j) in taken
      invariant counter > 1 ==> UniqueUsername(base, taken) == FirstFreeFrom(base, taken, counter - 1)
      decreases |taken| + 1 - counter
    {
      TakenBound(base, taken, counter - 1, true);
      username := Suffixed(base, counter);
      counter := counter + 1;
    }
  }

  /** The generated name is the base, or a suffixed form of it, and it is never taken. */
  lemma UniqueUsernameShape(base: string, taken: set<string>)
    ensures StartsWith(UniqueUsername(base, taken), base)
    ensures UniqueUsername(base, taken) !in taken
  {
    var r := UniqueUsername(base, taken);
    if base in taken {
      var k :| 1 <= k && r == Suffixed(base, k) && forall j :: 1 <= j < k ==> Suffixed(base, j) in taken;
      assert r[..|base|] == base;
    }
  }

  /** The username a newly created account ends with: the name-based one when no profile row was
      created, otherwise the id-based one, generated once the name-based one is itself taken. */
  function NewAccountUsername(isDoctor: bool, first: string, last: string, taken: set<string>, profileId: Option<nat>): (r: string)
    ensures r !in taken
    ensures profileId.None? ==> r == UniqueUsername(AccountBase(isDoctor, first, last, 0), taken)
    ensures profileId.Some? ==> r != UniqueUsername(AccountBase(isDoctor, first, last, 0), taken)
  {
    var nameBased := UniqueUsername(AccountBase(isDoctor, first, last, 0), taken);
    match profileId
    case None => nameBased
    case Some(pid) => UniqueUsername(AccountBase(isDoctor, first, last, pid), taken + {nameBased})
  }

  /** A new account's username starts with the base it was generated from: the name-based one
      without a profile row, the id-based one with it. */
  lemma NewAccountUsernameShape(isDoctor: bool, first: string, last: string, taken: set<string>, profileId: Option<nat>)
    ensures var r := NewAccountUsername(isDoctor, first, last, taken, profileId);
            && (profileId.None? ==> StartsWith(r, AccountBase(isDoctor, first, last, 0)))
            && (profileId.Some? ==> StartsWith(r, AccountBase(isDoctor, first, last, profileId.value)))
  {
    var nameBased := UniqueUsername(AccountBase(isDoctor, first, last, 0), taken);
    UniqueUsernameShape(AccountBase(isDoctor, first, last, 0), taken);
    if profileId.Some? {
      UniqueUsernameShape(AccountBase(isDoctor, first, last, profileId.value), taken + {nameBased});
    }
  }

  /** `User.objects.create_user(username=generate_unique_username(...), ...)`: a new user under a
      username generated from `base` against every username in the table. */
  method CreateUserWithUniqueName(db: AccountTables, base: string, email: string, first: string, last: string, password: string)
    returns (userId: nat)
    requires db.Valid()
    modifies db
    ensures db.Valid()
    ensures userId == old(db.nextUserId) && userId !in old(db.users) && db.nextUserId == old(db.nextUserId) + 1
    ensures db.users == old(db.users)[userId := UserRecord(UniqueUsername(base, TakenUsernames(old(db.users))), email, first, last, password)]
    ensures TakenUsernames(db.users) == TakenUsernames(old(db.users)) + {db.users[userId].username}
    ensures DistinctUsernames(old(db.users)) ==> DistinctUsernames(db.users)
    ensures db.patients == old(db.patients) && db.doctors == old(db.doctors)
    ensures db.nextPatientId == old(db.nextPatientId) && db.nextDoctorId == old(db.nextDoctorId)
  {
    var username := GenerateUniqueUsername(base, TakenUsernames(db.users));
    ghost var users0 := db.users;
    userId := db.CreateUser(UserRecord(username, email, first, last, password));
    assert users0 - {userId} == users0;
    TakenUsernamesUpdate(users0, userId, db.users[userId]);
    if DistinctUsernames(users0) {
      DistinctAfterRename(users0, userId, db.users[userId]);
    }
  }

  /** The finalisation step `final_username = generate_unique_username(..., id)` followed by a save
      when it differs. The generated name avoids every username, the user's own included, so it
      always differs and the rename always happens. */
  method RenameToUnique(db: AccountTables, userId: nat, base: string)
    requires db.Valid() && userId in db.users
    modifies db
    ensures db.Valid()
    ensures db.users == old(db.users)[userId := old(db.users)[userId].(username := UniqueUsername(base, TakenUsernames(old(db.users))))]
    ensures db.users[userId].username != old(db.users)[userId].username
    ensures DistinctUsernames(old(db.users)) ==> DistinctUsernames(db.users)
    ensures db.patients == old(db.patients) && db.doctors == old(db.doctors)
    ensures db.nextUserId == old(db.nextUserId) && db.nextPatientId == old(db.nextPatientId) && db.nextDoctorId == old(db.nextDoctorId)
  {
    var finalName := GenerateUniqueUsername(base, TakenUsernames(db.users));
    assert db.users[userId].username in TakenUsernames(db.users);
    if finalName != db.users[userId].username {
      ghost var users0 := db.users;
      db.UpdateUser(userId, db.users[userId].(username := finalName));
      if DistinctUsernames(users0) {
        DistinctWithout(users0, userId);
        DistinctAfterRename(users0, userId, db.users[userId]);
      }
    }
  }
}
