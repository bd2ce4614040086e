/** Registration and login: the input checks, in the order the handlers make
    them, and the new user record. Hashing and token signing are outside the
    model; a password hash and a password check are given to the handlers. */
module AuthHandlers {
  import opened Base
  import opened Models
  import opened Db

  const MissingFieldMsg := "Semua field harus diisi"
  const NoPreferenceMsg := "Pilih minimal satu preferensi"
  const InvalidPreferencePrefix := "Preferensi tidak valid: "
  const BadEmailMsg := "Format email tidak valid"
  const UsernameRegisteredMsg := "Username sudah terdaftar"
  const EmailRegisteredMsg := "Email sudah terdaftar"
  const MissingLoginMsg := "Username/Email dan password harus diisi"
  const UnknownLoginMsg := "Username/Email tidak ditemukan"
  const WrongPasswordMsg := "Password salah"

  // ----- the email pattern `^[^\s@]+@[^\s@]+\.[^\s@]+$` -----

  /** A character of the class `[^\s@]`. */
  predicate Plain(c: char) {
    !IsJsSpace(c) && c != '@'
  }

  predicate AllPlain(s: string) {
    forall k :: 0 <= k < |s| ==> Plain(s[k])
  }

  /** The language of the pattern: a non-empty run of plain characters, `@`,
      a non-empty run, `.`, and a non-empty run. */
  ghost predicate EmailPattern(s: string) {
    exists i, j :: 0 < i && i + 1 < j && j + 1 < |s| && s[i] == '@' && s[j] == '.' &&
      AllPlain(s[..i]) && AllPlain(s[i + 1..j]) && AllPlain(s[j + 1..])
  }

  /** The position of the first `@`, or `|s|` when there is none. */
  function FirstAt(s: string): (r: nat)
    ensures r <= |s| && (r < |s| ==> s[r] == '@')
    ensures forall k :: 0 <= k < r ==> s[k] != '@'
  {
    if s == [] then 0
    else if s[0] == '@' then 0
    else 1 + FirstAt(s[1..])
  }

  /** What `emailRegex.test(s)` decides, as a scan: a non-empty plain local
      part before the first `@`, and after it a plain domain with a `.`
      neither first nor last. */
  predicate IsEmail(s: string) {
    var i := FirstAt(s);
    0 < i < |s| && AllPlain(s[..i]) &&
    var d := s[i + 1..];
    AllPlain(d) && |d| >= 3 && '.' in d[1..|d| - 1]
  }

  /** The scan accepts exactly the strings of the pattern's language. */
  lemma IsEmailMeansPattern(s: string)
    ensures IsEmail(s) <==> EmailPattern(s)
  {
    if IsEmail(s) {
      IsEmailIsPattern(s);
    }
    if EmailPattern(s) {
      var i, j :| 0 < i && i + 1 < j && j + 1 < |s| && s[i] == '@' && s[j] == '.' &&
        AllPlain(s[..i]) && AllPlain(s[i + 1..j]) && AllPlain(s[j + 1..]);
      PatternIsEmail(s, i, j);
    }
  }

  lemma AllPlainSlice(d: string, a: nat, b: nat)
    requires AllPlain(d) && a <= b <= |d|
    ensures AllPlain(d[a..b])
  {
    assert forall k :: 0 <= k < b - a ==> d[a..b][k] == d[a + k];
  }

  lemma IsEmailIsPattern(s: string)
    requires IsEmail(s)
    ensures EmailPattern(s)
  {
    var i := FirstAt(s);
    var d := s[i + 1..];
    var inner := d[1..|d| - 1];
    var p :| 0 <= p < |inner| && inner[p] == '.';
    var j := i + 2 + p;
    assert s[j] == d[p + 1] == '.';
    assert s[i + 1..j] == d[..p + 1];
    assert s[j + 1..] == d[p + 2..];
    AllPlainSlice(d, 0, p + 1);
    AllPlainSlice(d, p + 2, |d|);
  }

  lemma PatternIsEmail(s: string, i: nat, j: nat)
    requires 0 < i && i + 1 < j && j + 1 < |s| && s[i] == '@' && s[j] == '.'
    requires AllPlain(s[..i]) && AllPlain(s[i + 1..j]) && AllPlain(s[j + 1..])
    ensures IsEmail(s)
  {
    forall k | 0 <= k < i ensures s[k] != '@' {
      assert s[..i][k] == s[k];
    }
    FirstAtIs(s, i);
    var d := s[i + 1..];
    assert d == s[i + 1..j] + ['.'] + s[j + 1..];
    assert AllPlain(d);
    var inner := d[1..|d| - 1];
    assert inner[j - i - 2] == '.';
  }

  lemma {:induction false} FirstAtIs(s: string, i: nat)
    requires i < |s| && s[i] == '@' && forall k :: 0 <= k < i ==> s[k] != '@'
    ensures FirstAt(s) == i
  {
    if i > 0 {
      FirstAtIs(s[1..], i - 1);
    }
  }

  // ----- preferences -----

  const ValidPreferences: seq<string> := [
    "Olahraga", "Belajar", "Produktivitas", "Relaksasi",
    "Hiburan", "Kesehatan", "Pengembangan Diri", "Sosial",
    "Kreativitas", "Hobi", "Rumah Tangga"]

  /** `preferences.filter(pref => !validPreferences.includes(pref))`. */
  function InvalidPreferences(prefs: seq<string>): (r: seq<string>)
    ensures |r| <= |prefs|
    ensures forall x :: x in r <==> x in prefs && x !in ValidPreferences
  {
    if prefs == [] then []
    else (if prefs[0] in ValidPreferences then [] else [prefs[0]]) + InvalidPreferences(prefs[1..])
  }

  /** The rejected preferences are those of the input, in input order: the
      filter distributes over concatenation and keeps or drops each item. */
  lemma {:induction false} InvalidPreferencesConcat(a: seq<string>, b: seq<string>)
    ensures InvalidPreferences(a + b) == InvalidPreferences(a) + InvalidPreferences(b)
  {
    if a == [] {
      assert a + b == b;
    } else {
      assert (a + b)[1..] == a[1..] + b;
      InvalidPreferencesConcat(a[1..], b);
    }
  }

  /** `xs.join(sep)`. */
  function Join(xs: seq<string>, sep: string): (r: string)
    ensures xs == [] ==> r == ""
    ensures |xs| == 1 ==> r == xs[0]
  {
    if xs == [] then ""
    else if |xs| == 1 then xs[0]
    else xs[0] + sep + Join(xs[1..], sep)
  }

  function InvalidPreferencesMsg(invalid: seq<string>): string {
    InvalidPreferencePrefix + Join(invalid, ", ")
  }

  // ----- registration -----

  /** What registration answers with. The schema has no `preferences` field,
      so the preferences are checked but not stored, and the answer's
      `preferences` is undefined. */
  datatype Registered = Registered(username: string, name: string, email: string)

  /** The checks before the store is consulted, in order: the four fields,
      then (`withPreferences`) the preference list, then the email shape. */
  function InputCheck(username: Option<string>, name: Option<string>, email: Option<string>,
                      password: Option<string>, withPreferences: bool,
                      preferences: Option<seq<string>>): (r: Option<string>)
    ensures r.None? <==>
      Truthy(username) && Truthy(name) && Truthy(email) && Truthy(password) &&
      (withPreferences ==> preferences.Some? && preferences.value != [] &&
                           forall p :: p in preferences.value ==> p in ValidPreferences) &&
      IsEmail(email.value)
    ensures !(Truthy(username) && Truthy(name) && Truthy(email) && Truthy(password)) ==> r == Some(MissingFieldMsg)
  {
    if !(Truthy(username) && Truthy(name) && Truthy(email) && Truthy(password)) then Some(MissingFieldMsg)
    else if withPreferences && (preferences.None? || preferences.value == []) then Some(NoPreferenceMsg)
    else if withPreferences && InvalidPreferences(preferences.value) != [] then
      var invalid := InvalidPreferences(preferences.value);
      assert invalid[0] in invalid;
      Some(InvalidPreferencesMsg(invalid))
    else if !IsEmail(email.value) then Some(BadEmailMsg)
    else None
  }

  /** A preference list that passes names only whitelisted entries; one that
      fails is answered with exactly its non-whitelisted entries. */
  lemma PreferenceCheckMeaning(username: Option<string>, name: Option<string>, email: Option<string>,
                               password: Option<string>, preferences: Option<seq<string>>)
    requires Truthy(username) && Truthy(name) && Truthy(email) && Truthy(password)
    ensures preferences.None? || preferences.value == [] ==>
      InputCheck(username, name, email, password, true, preferences) == Some(NoPreferenceMsg)
    ensures preferences.Some? && preferences.value != [] && InvalidPreferences(preferences.value) != [] ==>
      InputCheck(username, name, email, password, true, preferences) ==
        Some(InvalidPreferencesMsg(InvalidPreferences(preferences.value)))
    ensures InputCheck(username, name, email, password, false, preferences) ==
      if IsEmail(email.value) then None else Some(BadEmailMsg)
  {
  }

  /** `registerHandler` (`withPreferences`) and the older handler without the
      preference check. `preferences` is `None` when the field is missing or
      not an array. `hash` is the bcrypt hash of the password. The new user is
      saved under the next free id. */
  method Register(db: Store, username: Option<string>, name: Option<string>, email: Option<string>,
                  password: Option<string>, withPreferences: bool, preferences: Option<seq<string>>,
                  hash: string) returns (r: Outcome<Registered>)
    requires db.Valid()
    modifies db
    ensures db.Valid()
    ensures var check := InputCheck(username, name, email, password, withPreferences, preferences);
      check.Some? ==> r == Rejected(BadRequest, check.value)
    ensures r.Rejected? ==> unchanged(db) && r.status == BadRequest
    ensures InputCheck(username, name, email, password, withPreferences, preferences).None? ==>
      (r == Rejected(BadRequest, UsernameRegisteredMsg) ==>
         exists k :: k in old(db.users) && old(db.users)[k].username == username.value) &&
      (r == Rejected(BadRequest, EmailRegisteredMsg) ==>
         exists k :: k in old(db.users) && old(db.users)[k].email == email.value)
    ensures InputCheck(username, name, email, password, withPreferences, preferences).None? ==>
      (r.Done? <==> forall k :: k in old(db.users) ==>
         old(db.users)[k].username != username.value && old(db.users)[k].email != email.value) &&
      ((exists k :: k in old(db.users) && old(db.users)[k].username == username.value) &&
       (forall k :: k in old(db.users) ==> old(db.users)[k].email != email.value) ==>
         r == Rejected(BadRequest, UsernameRegisteredMsg)) &&
      ((exists k :: k in old(db.users) && old(db.users)[k].email == email.value) &&
       (forall k :: k in old(db.users) ==> old(db.users)[k].username != username.value) ==>
         r == Rejected(BadRequest, EmailRegisteredMsg))
    ensures (InputCheck(username, name, email, password, withPreferences, preferences).None? &&
             (exists k :: k in old(db.users) && old(db.users)[k].username == username.value) &&
             forall k :: k in old(db.users) && old(db.users)[k].email == email.value ==>
               old(db.users)[k].username == username.value) ==>
      r == Rejected(BadRequest, UsernameRegisteredMsg)
    ensures r.Done? ==>
      var id := old(db.nextId);
      r.value == Registered(username.value, name.value, email.value) &&
      db.users == old(db.users)[id := User(username.value, name.value, email.value, hash, None, [])] &&
      db.nextId == id + 1 &&
      db.comments == old(db.comments) && db.stories == old(db.stories) &&
      db.notifications == old(db.notifications)
  {
    var check := InputCheck(username, name, email, password, withPreferences, preferences);
    if check.Some? {
      return Rejected(BadRequest, check.value);
    }
    var found := FindByUsernameOrEmail(db.users, username.value, email.value);
    if found.Some? {
      if db.users[found.value].username == username.value {
        return Rejected(BadRequest, UsernameRegisteredMsg);
      }
      return Rejected(BadRequest, EmailRegisteredMsg);
    }
    var id := db.nextId;
    var us := db.users[id := User(username.value, name.value, email.value, hash, None, [])];
    CoherentGrow(db.comments, db.stories, id, id + 1);
    FitsAfter(db.comments, db.stories, db.notifications, db.users, id,
              db.comments, db.stories, db.notifications, us, id + 1);
    db.Commit(db.comments, db.stories, db.notifications, us, id + 1);
    r := Done(Registered(username.value, name.value, email.value));
  }

  // ----- login -----

  /** `loginHandler` up to the token: `verify(password, hash)` is the bcrypt
      comparison. The answer is the id of the user who signed in. */
  method Login(db: Store, login: Option<string>, password: Option<string>,
               verify: (string, string) -> bool) returns (r: Outcome<Id>)
    ensures !Truthy(login) || !Truthy(password) <==> r == Rejected(BadRequest, MissingLoginMsg)
    ensures Truthy(login) && Truthy(password) ==>
      (r == Rejected(NotFound, UnknownLoginMsg) <==>
        forall k :: k in db.users ==> db.users[k].username != login.value && db.users[k].email != login.value)
    ensures r == Rejected(Unauthorized, WrongPasswordMsg) ==>
      exists k :: k in db.users && (db.users[k].username == login.value || db.users[k].email == login.value) &&
        !verify(password.value, db.users[k].passwordHash)
    ensures r.Done? ==>
      r.value in db.users && (db.users[r.value].username == login.value || db.users[r.value].email == login.value) &&
      verify(password.value, db.users[r.value].passwordHash)
    ensures r.Rejected? ==> r.status in {BadRequest, NotFound, Unauthorized}
    ensures r.Rejected? ==>
      r == Rejected(BadRequest, MissingLoginMsg) || r == Rejected(NotFound, UnknownLoginMsg) ||
      r == Rejected(Unauthorized, WrongPasswordMsg)
    ensures (Truthy(login) && Truthy(password) &&
             (exists k :: k in db.users && (db.users[k].username == login.value || db.users[k].email == login.value)) &&
             forall k :: k in db.users && (db.users[k].username == login.value || db.users[k].email == login.value) ==>
               verify(password.value, db.users[k].passwordHash)) ==>
      r.Done?
  {
    if !Truthy(login) || !Truthy(password) {
      return Rejected(BadRequest, MissingLoginMsg);
    }
    var found := FindByUsernameOrEmail(db.users, login.value, login.value);
    if found.None? {
      return Rejected(NotFound, UnknownLoginMsg);
    }
    if !verify(password.value, db.users[found.value].passwordHash) {
      return Rejected(Unauthorized, WrongPasswordMsg);
    }
    r := Done(found.value);
  }
}
