/** The JSON-backed user registry: a dictionary from user name to an entry
    holding the password hash, the registration time and the last login.
    Registration refuses taken names and weak passwords; login stamps the
    one entry it authenticates; an `admin` entry is seeded when absent. */
module Accounts {
  import opened Tables
  import opened Text

  datatype Entry = Entry(password: string, registeredAt: string, lastLogin: Option<string>)

  // ---------------------------------------------------------------------
  // The weak-password rule

  /** `c.isdigit()` for the decimal digits. */
  predicate IsDigitChar(c: char) {
    '0' <= c <= '9'
  }

  /** `c.isalpha()` for Latin letters, the Latin-1 letters and the Cyrillic letters. */
  predicate IsAlphaChar(c: char) {
    || ('A' <= c <= 'Z') || ('a' <= c <= 'z')
    || c == '\U{AA}' || c == '\U{B5}' || c == '\U{BA}'
    || ('\U{C0}' <= c <= '\U{D6}') || ('\U{D8}' <= c <= '\U{F6}') || ('\U{F8}' <= c <= '\U{FF}')
    || ('\U{0400}' <= c <= '\U{0481}') || ('\U{048A}' <= c <= '\U{04FF}')
  }

  /** `s.isdigit()`: non-empty and every character a digit. */
  predicate AllDigits(s: string) {
    s != [] && forall i :: 0 <= i < |s| ==> IsDigitChar(s[i])
  }

  /** `s.isalpha()`: non-empty and every character a letter. */
  predicate AllLetters(s: string) {
    s != [] && forall i :: 0 <= i < |s| ==> IsAlphaChar(s[i])
  }

  /** `is_bad_password`. */
  predicate IsBadPassword(password: string) {
    AllDigits(password) || AllLetters(password)
  }

  /** The empty password is not "bad": both string tests are false on it. */
  lemma EmptyPasswordNotBad()
    ensures !IsBadPassword("")
  {
  }

  /** A password holding both a digit and a letter, or any character that is
      neither, is accepted; one made of digits only or letters only is not. */
  lemma BadPasswordCases(password: string)
    ensures (exists i, j :: 0 <= i < |password| && 0 <= j < |password|
                             && IsDigitChar(password[i]) && IsAlphaChar(password[j]))
            ==> !IsBadPassword(password)
    ensures (exists i :: 0 <= i < |password| && !IsDigitChar(password[i]) && !IsAlphaChar(password[i]))
            ==> !IsBadPassword(password)
    ensures password != [] && (forall i :: 0 <= i < |password| ==> IsDigitChar(password[i]))
            ==> IsBadPassword(password)
  {
  }

  lemma PasswordExamples()
    ensures IsBadPassword("12345678")
    ensures IsBadPassword("password")
    ensures IsBadPassword("пароль")
    ensures !IsBadPassword("passw0rd")
    ensures !IsBadPassword("pass word")
  {
    assert "passw0rd"[5] == '0' && "passw0rd"[0] == 'p';
    assert "pass word"[4] == ' ';
  }

  // ---------------------------------------------------------------------
  // Forms

  /** WTForms `DataRequired`: present, non-empty and not only whitespace. */
  predicate DataRequired(field: Option<string>) {
    field.Some? && Strip(field.value) != ""
  }

  /** `RegisterForm.validate()`: both fields required, the user name at least
      4 characters and the password at least 8, counted before stripping. */
  predicate RegisterFormValid(username: Option<string>, password: Option<string>) {
    DataRequired(username) && |username.value| >= 4 && DataRequired(password) && |password.value| >= 8
  }

  /** `LoginForm.validate()`: both fields required. */
  predicate LoginFormValid(username: Option<string>, password: Option<string>) {
    DataRequired(username) && DataRequired(password)
  }

  /** A missing, empty or blank field fails `DataRequired`, while `Length`
      counts the surrounding whitespace: `"  ab"` is a long enough user name. */
  lemma FormExamples()
    ensures !DataRequired(None) && !DataRequired(Some("")) && !DataRequired(Some(" \t "))
    ensures RegisterFormValid(Some("  ab"), Some("pa55word"))
    ensures !RegisterFormValid(Some("abc"), Some("pa55word"))
    ensures !LoginFormValid(Some("admin"), Some("   "))
  {
    assert forall k :: 0 <= k < |" \t "| ==> IsSpace(" \t "[k]);
    assert forall k :: 0 <= k < |"   "| ==> IsSpace("   "[k]);
    assert !IsSpace("  ab"[2]);
    assert !IsSpace("pa55word"[0]);
  }

  // ---------------------------------------------------------------------
  // Dictionary updates

  /** `users[name] = {password, registered_at, last_login: None}` for a new name. */
  function AddUser(users: map<string, Entry>, name: string, passwordHash: string, now: string): (r: map<string, Entry>)
    requires name !in users
    ensures r.Keys == users.Keys + {name}
    ensures |r| == |users| + 1
    ensures forall k :: k in users ==> r[k] == users[k]
    ensures r[name].password == passwordHash && r[name].registeredAt == now && r[name].lastLogin.None?
  {
    users[name := Entry(passwordHash, now, None)]
  }

  /** `user["last_login"] = now` on the entry of `name`. */
  function StampLogin(users: map<string, Entry>, name: string, now: string): (r: map<string, Entry>)
    requires name in users
    ensures r.Keys == users.Keys
    ensures forall k :: k in users && k != name ==> r[k] == users[k]
    ensures r[name].password == users[name].password && r[name].registeredAt == users[name].registeredAt
    ensures r[name].lastLogin == Some(now)
  {
    users[name := users[name].(lastLogin := Some(now))]
  }

  /** The start-up seeding: an `admin` entry with the given hash, unless one was loaded. */
  function Seeded(loaded: map<string, Entry>, adminHash: string, now: string): (r: map<string, Entry>)
    ensures "admin" in r
    ensures "admin" in loaded ==> r == loaded
    ensures "admin" !in loaded ==> r == AddUser(loaded, "admin", adminHash, now)
    ensures forall k :: k in loaded ==> k in r && r[k] == loaded[k]
  {
    if "admin" in loaded then loaded else AddUser(loaded, "admin", adminHash, now)
  }

  // ---------------------------------------------------------------------
  // The handlers' decisions

  datatype RegisterOutcome = FormInvalid | Duplicate | WeakPassword | Created
  datatype LoginOutcome = LoginFormInvalid | BadCredentials | LoggedIn

  /** What `register` answers; only `Created` changes the dictionary. */
  function RegisterDecision(users: map<string, Entry>, username: Option<string>, password: Option<string>): (r: RegisterOutcome)
    ensures r == FormInvalid <==> !RegisterFormValid(username, password)
    ensures r == Duplicate <==> RegisterFormValid(username, password) && username.value in users
    ensures r == WeakPassword <==>
      RegisterFormValid(username, password) && username.value !in users && IsBadPassword(password.value)
    ensures r == Created ==>
      && |username.value| >= 4 && |password.value| >= 8
      && username.value !in users && !IsBadPassword(password.value)
  {
    if !RegisterFormValid(username, password) then FormInvalid
    else if username.value in users then Duplicate
    else if IsBadPassword(password.value) then WeakPassword
    else Created
  }

  /** A password `register` accepts contains a character that is not a digit
      and one that is not a letter. */
  lemma {:induction false} CreatedPasswordIsMixed(users: map<string, Entry>, username: Option<string>, password: Option<string>)
    requires RegisterDecision(users, username, password) == Created
    ensures exists i :: 0 <= i < |password.value| && !IsDigitChar(password.value[i])
    ensures exists j :: 0 <= j < |password.value| && !IsAlphaChar(password.value[j])
  {
    assert password.value != [];
  }

  /** What `login` answers; `check` stands for `check_password_hash`. */
  function LoginDecision(users: map<string, Entry>, username: Option<string>, password: Option<string>,
                         check: (string, string) -> bool): (r: LoginOutcome)
    ensures r == LoggedIn <==>
      && LoginFormValid(username, password) && username.value in users
      && check(users[username.value].password, password.value)
    ensures r == LoginFormInvalid <==> !LoginFormValid(username, password)
  {
    if !LoginFormValid(username, password) then LoginFormInvalid
    else if username.value in users && check(users[username.value].password, password.value) then LoggedIn
    else BadCredentials
  }

  /** The `admin` entry survives every registration and every login except
      its own, whose only effect on it is the new login time. */
  lemma AdminNeverOverwritten(users: map<string, Entry>, name: string, passwordHash: string, now: string)
    requires "admin" in users
    ensures name !in users ==> AddUser(users, name, passwordHash, now)["admin"] == users["admin"]
    ensures name in users ==> StampLogin(users, name, now)["admin"].password == users["admin"].password
  {
  }

  class Registry {
    /** The module-level `users` dictionary. */
    var users: map<string, Entry>

    /** Loading the dictionary and the start-up seeding of `admin`. */
    constructor (loaded: map<string, Entry>, adminHash: string, now: string)
      ensures users == Seeded(loaded, adminHash, now)
    {
      var seeded := loaded;
      if "admin" !in seeded {
        seeded := seeded["admin" := Entry(adminHash, now, None)];
      }
      users := seeded;
    }

    /** The POST branch of `register`; `passwordHash` and `now` stand for
        `generate_password_hash` and the clock. */
    method Register(username: Option<string>, password: Option<string>, passwordHash: string, now: string)
      returns (outcome: RegisterOutcome)
      modifies this
      ensures outcome == RegisterDecision(old(users), username, password)
      ensures outcome == Created ==> users == AddUser(old(users), username.value, passwordHash, now)
      ensures outcome != Created ==> users == old(users)
    {
      if !RegisterFormValid(username, password) {
        return FormInvalid;
      }
      var name := username.value;
      if name in users {
        return Duplicate;
      }
      if IsBadPassword(password.value) {
        return WeakPassword;
      }
      users := users[name := Entry(passwordHash, now, None)];
      outcome := Created;
    }

    /** The POST branch of `login`. */
    method Login(username: Option<string>, password: Option<string>, check: (string, string) -> bool, now: string)
      returns (outcome: LoginOutcome)
      modifies this
      ensures outcome == LoginDecision(old(users), username, password, check)
      ensures outcome == LoggedIn ==> users == StampLogin(old(users), username.value, now)
      ensures outcome != LoggedIn ==> users == old(users)
    {
      if !LoginFormValid(username, password) {
        return LoginFormInvalid;
      }
      var name := username.value;
      if name in users && check(users[name].password, password.value) {
        users := users[name := users[name].(lastLogin := Some(now))];
        return LoggedIn;
      }
      outcome := BadCredentials;
    }
  }
}
