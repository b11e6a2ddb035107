/** The profile page script (frontend/js/profile.js): the cookie lookup used for the CSRF header,
    the full name shown from the first and last names, the split of an edited full name back into
    the two, and the page's editing state. The network calls are inputs: the reply of the server,
    or `None` when the request fails. */
module Profile {
  import opened Wrappers
  import opened Text

  // ---------------------------------------------------------------------------
  // getCookie

  /** `s.substring(0, n)`: the first `n` characters, or all of them when there are fewer. */
  function JsPrefix(s: string, n: nat): (r: string)
    ensures |r| == if n <= |s| then n else |s|
  {
    if n <= |s| then s[..n] else s
  }

  /** `s.substring(n)`: everything from position `n`, or nothing when `n` is past the end. */
  function JsSuffixFrom(s: string, n: nat): string {
    if n <= |s| then s[n..] else ""
  }

  /** `decodeURIComponent`, taken as the identity (percent-escapes are not decoded here). */
  function DecodeURIComponent(s: string): string {
    s
  }

  /** Whether a trimmed `;`-separated entry is the cookie `name`: its first `|name| + 1`
      characters are `name=`. */
  predicate IsCookie(entry: string, name: string) {
    JsPrefix(entry, |name| + 1) == name + "="
  }

  /** The value of a matching trimmed entry: what follows `name=`. */
  function ValueOf(entry: string, name: string): string {
    DecodeURIComponent(JsSuffixFrom(entry, |name| + 1))
  }

  /** The comparison of the first `|name| + 1` characters is a prefix test for `name=`: a cookie
      whose name merely begins with `name` does not match, and a matching entry is `name=` followed
      by its value. */
  lemma MatchIsPrefix(entry: string, name: string)
    ensures IsCookie(entry, name) <==> StartsWith(entry, name + "=")
    ensures IsCookie(entry, name) ==> entry == name + "=" + ValueOf(entry, name)
  {
    if IsCookie(entry, name) {
      assert entry == entry[..|name| + 1] + entry[|name| + 1..];
    }
  }

  /** The entries of `document.cookie.split(';')`, each trimmed. */
  function TrimAll(parts: seq<string>): (r: seq<string>)
    ensures |r| == |parts|
  {
    seq(|parts|, i requires 0 <= i < |parts| => Trim(parts[i]))
  }

  /** The position of the first entry that is the cookie `name`, if any. */
  function FirstMatch(entries: seq<string>, name: string): (r: Option<nat>)
    ensures r.Some? ==> r.value < |entries| && IsCookie(entries[r.value], name)
    ensures r.Some? ==> forall k :: 0 <= k < r.value ==> !IsCookie(entries[k], name)
    ensures r.None? <==> forall k :: 0 <= k < |entries| ==> !IsCookie(entries[k], name)
  {
    if entries == [] then None
    else if IsCookie(entries[0], name) then Some(0)
    else match FirstMatch(entries[1..], name)
      case None => None
      case Some(i) => Some(i + 1)
  }

  /** What `getCookie(name)` returns for the cookie string `cookie`: nothing for an empty string,
      else the value of the first trimmed entry that is the cookie. */
  function CookieValue(cookie: string, name: string): Option<string> {
    if cookie == "" then None
    else
      var entries := TrimAll(Split(cookie, ';'));
      match FirstMatch(entries, name)
      case None => None
      case Some(i) => Some(ValueOf(entries[i], name))
  }

  /** `getCookie`: the loop over the entries stops at the first match. */
  method GetCookie(cookie: string, name: string) returns (value: Option<string>)
    ensures value == CookieValue(cookie, name)
  {
    value := None;
    if cookie != "" {
      var cookies := Split(cookie, ';');
      ghost var entries := TrimAll(cookies);
      var i := 0;
      while i < |cookies|
        invariant 0 <= i <= |cookies|
        invariant forall k :: 0 <= k < i ==> !IsCookie(entries[k], name)
        invariant value.None?
      {
        var entry := Trim(cookies[i]);
        assert entry == entries[i];
        if JsPrefix(entry, |name| + 1) == name + "=" {
          value := Some(DecodeURIComponent(JsSuffixFrom(entry, |name| + 1)));
          break;
        }
        i := i + 1;
      }
    }
  }

  /** A string with no space at either end is its own trim, also with one space added at the end. */
  lemma TrimOfTrimmed(s: string)
    requires s != [] && !IsSpace(s[0]) && !IsSpace(s[|s| - 1])
    ensures Trim(s) == s
    ensures Trim(s + " ") == s
  {
    var t := s + " ";
    assert t[0] == s[0];
    assert t[..|t| - 1] == s;
  }

  /** `csrftoken2=abc` is not the cookie `csrftoken`, while `csrftoken=abc` is, with value `abc`. */
  lemma LongerNameDoesNotMatch()
    ensures !IsCookie("csrftoken2=abc", "csrftoken")
    ensures IsCookie("csrftoken=abc", "csrftoken") && ValueOf("csrftoken=abc", "csrftoken") == "abc"
  {
    assert JsPrefix("csrftoken2=abc", 10)[9] == '2';
  }

  // ---------------------------------------------------------------------------
  // Full name

  /** `value || ''` for an optional string field. */
  function OrEmpty(value: Option<string>): string {
    if value.None? then "" else value.value
  }

  /** `(firstName + ' ' + lastName).trim() || 'User'`. */
  function FullName(first: Option<string>, last: Option<string>): (r: string)
    ensures r != ""
    ensures r == "User" <==> Trim(OrEmpty(first) + " " + OrEmpty(last)) in {"", "User"}
  {
    var joined := Trim(OrEmpty(first) + " " + OrEmpty(last));
    if joined == "" then "User" else joined
  }

  /** The display field: the full name, or 'Not provided' when it is 'User'. */
  function FullNameDisplay(first: Option<string>, last: Option<string>): string {
    var full := FullName(first, last);
    if full != "User" then full else "Not provided"
  }

  /** The edit field: the full name, or empty when it is 'User'. */
  function FullNameEditValue(first: Option<string>, last: Option<string>): string {
    var full := FullName(first, last);
    if full != "User" then full else ""
  }

  /** No name at all, and a person whose name is literally "User", look the same: both display
      'Not provided' and leave the edit field empty. */
  lemma MissingNameAndUserLookAlike()
    ensures FullNameDisplay(None, None) == "Not provided" && FullNameEditValue(None, None) == ""
    ensures FullNameDisplay(Some("User"), Some("")) == "Not provided" && FullNameEditValue(Some("User"), Some("")) == ""
  {
    TrimSpec(" ");
    assert AllSpace(" ");
    TrimOfTrimmed("User");
    assert "User" + " " + "" == "User" + " ";
  }

  /** The split in `saveProfile`: the trimmed edit value cut at spaces, the first piece as first
      name and the other pieces, joined by spaces, as last name. */
  function SplitFullName(editValue: string): (string, string) {
    var parts := Split(Trim(editValue), ' ');
    (parts[0], Join(parts[1..], ' '))
  }

  /** When the trimmed name has a space, first name, a space and last name give it back; when it
      has none, it is all first name. The first name is empty exactly when the name is blank. */
  lemma {:induction false} SplitFullNameRejoins(editValue: string)
    ensures var full := Trim(editValue);
            var (first, last) := SplitFullName(editValue);
            && (' ' in full ==> first + " " + last == full)
            && (' ' !in full ==> first == full && last == "")
            && (first == "" <==> full == "")
            && ' ' !in first
  {
    var full := Trim(editValue);
    var parts := Split(full, ' ');
    JoinSplit(full, ' ');
    if |parts| >= 2 {
      assert Join(parts, ' ') == parts[0] + [' '] + Join(parts[1..], ' ');
    }
    if full != "" {
      TrimSpec(editValue);
      SplitHeadNonEmpty(full, ' ');
    }
  }

  /** Saving an edited name that the server stores as sent shows the trimmed name again. */
  lemma {:induction false} EditedNameShownBack(editValue: string)
    requires Trim(editValue) != ""
    ensures var (first, last) := SplitFullName(editValue);
            FullName(Some(first), Some(last)) == Trim(editValue)
  {
    var full := Trim(editValue);
    var (first, last) := SplitFullName(editValue);
    SplitFullNameRejoins(editValue);
    TrimSpec(editValue);
    TrimOfTrimmed(full);
    if ' ' !in full {
      assert first + " " + last == full + " ";
    }
  }

  // ---------------------------------------------------------------------------
  // Page state

  /** The user record the profile API returns; absent fields are `None`. */
  datatype UserData = UserData(
    firstName: Option<string>, lastName: Option<string>, email: Option<string>,
    phone: Option<string>, dateOfBirth: Option<string>, address: Option<string>)

  const NoData: UserData := UserData(None, None, None, None, None, None)

  /** The body of the update request. */
  datatype ProfileUpdate = ProfileUpdate(firstName: string, lastName: string, phone: string, dateOfBirth: string, address: string)

  /** `value || 'Not provided'`. */
  function OrNotProvided(value: Option<string>): string {
    if value.None? || value.value == "" then "Not provided" else value.value
  }

  /** The texts `populateFields` writes (the date of birth's display is locale formatting and is not
      modelled). */
  datatype ProfileView = ProfileView(
    header: string, email: string, fullNameDisplay: string, phoneDisplay: string, addressDisplay: string,
    fullNameEdit: string, phoneEdit: string, dobEdit: string, addressEdit: string)

  function Populate(u: UserData): (v: ProfileView)
    ensures v.header != ""
    ensures v.fullNameEdit == "" <==> v.header == "User"
    ensures v.header == "User" ==> v.fullNameDisplay == "Not provided"
    ensures v.header != "User" ==> v.fullNameDisplay == v.header == v.fullNameEdit
  {
    ProfileView(
      FullName(u.firstName, u.lastName), OrEmpty(u.email),
      FullNameDisplay(u.firstName, u.lastName), OrNotProvided(u.phone), OrNotProvided(u.address),
      FullNameEditValue(u.firstName, u.lastName), OrEmpty(u.phone), OrEmpty(u.dateOfBirth), OrEmpty(u.address))
  }

  /** The request `saveProfile` sends for the edit fields, or `None` when the first name is empty. */
  function UpdateRequest(nameEdit: string, phoneEdit: string, dobEdit: string, addressEdit: string): (r: Option<ProfileUpdate>)
    ensures r.None? <==> Trim(nameEdit) == ""
    ensures r.Some? ==> r.value.firstName != "" && ' ' !in r.value.firstName
  {
    SplitFullNameRejoins(nameEdit);
    var (first, last) := SplitFullName(nameEdit);
    if first == "" then None
    else Some(ProfileUpdate(first, last, Trim(phoneEdit), dobEdit, Trim(addressEdit)))
  }

  class ProfilePage {
    var isEditing: bool
    var currentUserData: UserData
    /** What `populateFields` last wrote; `None` while the page still shows "Loading...". */
    var shown: Option<ProfileView>

    /** Page load, before the profile request completes. */
    constructor ()
      ensures !isEditing && currentUserData == NoData && shown.None?
    {
      isEditing := false;
      currentUserData := NoData;
      shown := None;
    }

    /** `loadUserProfile`: a successful reply becomes the current data and is shown; a failed one
        (an HTTP error, a 401, `success: false`) changes nothing here. */
    method LoadUserProfile(reply: Option<UserData>)
      modifies this
      ensures reply.Some? ==> currentUserData == reply.value && shown == Some(Populate(reply.value))
      ensures reply.None? ==> unchanged(this)
      ensures isEditing == old(isEditing)
    {
      if reply.Some? {
        currentUserData := reply.value;
        shown := Some(Populate(reply.value));
      }
    }

    /** `toggleEditMode`. */
    method ToggleEditMode(editing: bool)
      modifies this
      ensures isEditing == editing
      ensures currentUserData == old(currentUserData) && shown == old(shown)
    {
      isEditing := editing;
    }

    /** The cancel button: leave editing and show the current data again. */
    method Cancel()
      modifies this
      ensures !isEditing && currentUserData == old(currentUserData)
      ensures shown == Some(Populate(currentUserData))
    {
      ToggleEditMode(false);
      shown := Some(Populate(currentUserData));
    }

    /** `saveProfile`: with an empty first name nothing is sent and nothing changes; otherwise the
        request is sent, and a successful reply becomes the current data, is shown, and ends
        editing, while a failed one changes nothing. */
    method SaveProfile(nameEdit: string, phoneEdit: string, dobEdit: string, addressEdit: string, reply: Option<UserData>)
      returns (request: Option<ProfileUpdate>)
      modifies this
      ensures request == UpdateRequest(nameEdit, phoneEdit, dobEdit, addressEdit)
      ensures request.None? || reply.None? ==> unchanged(this)
      ensures request.Some? && reply.Some? ==>
                && currentUserData == reply.value && shown == Some(Populate(reply.value)) && !isEditing
    {
      var full := Trim(nameEdit);
      var parts := Split(full, ' ');
      var first := parts[0];
      var last := Join(parts[1..], ' ');
      if first == "" {
        return None;
      }
      request := Some(ProfileUpdate(first, last, Trim(phoneEdit), dobEdit, Trim(addressEdit)));
      if reply.Some? {
        currentUserData := reply.value;
        shown := Some(Populate(reply.value));
        ToggleEditMode(false);
      }
    }
  }
}
