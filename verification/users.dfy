/** The user registry: registration and profile edits (routes/api/users.js),
    over the user documents of models/User.js. */
module Users {
  import opened Wrappers
  import opened Http

  type UserId = nat

  /** A stored user document. `password` holds the bcrypt hash, never the plain text. */
  datatype User = User(
    firstname: string,
    lastname: string,
    email: string,
    phone: string,
    password: string,
    dateOfBirth: string,
    articlePreferences: seq<string>,
    date: int,
    isVerified: bool,
    otp: Option<nat>,
    otpExpiry: Option<int>)

  /** The body of a register or edit request; an absent password is the empty string. */
  datatype UserForm = UserForm(
    firstname: string,
    lastname: string,
    email: string,
    phone: string,
    dateOfBirth: string,
    articlePreferences: seq<string>,
    password: string)

  /** The six profile fields: what an edit stores and echoes back. There is no password here. */
  datatype Profile = Profile(
    firstname: string,
    lastname: string,
    email: string,
    phone: string,
    dateOfBirth: string,
    articlePreferences: seq<string>)

  function ProfileOf(u: User): Profile {
    Profile(u.firstname, u.lastname, u.email, u.phone, u.dateOfBirth, u.articlePreferences)
  }

  function FormProfile(f: UserForm): Profile {
    Profile(f.firstname, f.lastname, f.email, f.phone, f.dateOfBirth, f.articlePreferences)
  }

  const MinPasswordLength := 6

  const EmailTaken := "User with this email already exists"
  const PhoneTaken := "User with this phone number already exists"
  const PasswordTooShort := "Password must be atleast 6 characters long"
  const NoSuchUser := "User does not exist"

  predicate IsDigit(c: char) {
    '0' <= c <= '9'
  }

  /** The numeric check of the validator library with its default options: an optional
      sign, then digits holding at most one decimal point, ending in a digit. */
  predicate IsNumeric(s: string)
    ensures IsNumeric(s) ==> |s| > 0 && IsDigit(s[|s| - 1])
    ensures IsNumeric(s) ==> forall i :: 0 < i < |s| ==> IsDigit(s[i]) || s[i] == '.'
    ensures (|s| > 0 && forall i :: 0 <= i < |s| ==> IsDigit(s[i])) ==> IsNumeric(s)
  {
    var t := if |s| > 0 && (s[0] == '+' || s[0] == '-') then s[1..] else s;
    t != [] && IsDigit(t[|t| - 1]) && multiset(t)['.'] <= 1 &&
    forall i :: 0 <= i < |t| ==> IsDigit(t[i]) || t[i] == '.'
  }

  /** A simplified e-mail check: exactly one '@', something before it, and a dot
      strictly inside the domain after it. */
  predicate IsEmail(s: string)
    ensures IsEmail(s) ==> |s| >= 5 && '@' in s && '.' in s
  {
    multiset(s)['@'] == 1 &&
    exists k :: 0 < k < |s| && s[k] == '@' && HasInnerDot(s[k + 1..])
  }

  predicate HasInnerDot(d: string) {
    exists j :: 0 < j < |d| - 1 && d[j] == '.'
  }

  /** The messages of the profile checks that fail, in the order the checks are declared;
      empty exactly when every check passes. */
  function ProfileErrors(f: UserForm): (errs: seq<string>)
    ensures errs == [] <==>
      f.firstname != "" && f.lastname != "" && IsEmail(f.email) && IsNumeric(f.phone) &&
      f.dateOfBirth != "" && f.articlePreferences != []
    ensures |errs| <= 6
  {
    (if f.firstname == "" then ["Please Enter a First Name"] else []) +
    (if f.lastname == "" then ["Please Enter a Last Name"] else []) +
    (if !IsEmail(f.email) then ["Please include a valid email"] else []) +
    (if !IsNumeric(f.phone) then ["Please Enter a valid phone number"] else []) +
    (if f.dateOfBirth == "" then ["Please Enter a valid date of birth"] else []) +
    (if f.articlePreferences == [] then ["Please Enter one or two preferences"] else [])
  }

  /** The length JavaScript's `length` reports: UTF-16 code units, so a character outside
      the Basic Multilingual Plane counts twice. */
  function Utf16Length(s: string): (n: nat)
    ensures |s| <= n <= 2 * |s|
    ensures (forall i :: 0 <= i < |s| ==> s[i] as int < 0x1_0000) ==> n == |s|
  {
    if s == [] then 0
    else Utf16Length(s[1..]) + (if s[0] as int >= 0x1_0000 then 2 else 1)
  }

  /** The length the validator library's `isLength` measures: code points, not counting the
      two variation selectors U+FE0E and U+FE0F. */
  function ValidatorLength(s: string): (n: nat)
    ensures n <= |s| <= Utf16Length(s)
    ensures '\U{FE0E}' !in s && '\U{FE0F}' !in s ==> n == |s|
  {
    if s == [] then 0
    else ValidatorLength(s[1..]) + (if s[0] == '\U{FE0E}' || s[0] == '\U{FE0F}' then 0 else 1)
  }

  /** Registration runs the profile checks and then requires a password of at least six characters. */
  function RegisterErrors(f: UserForm): (errs: seq<string>)
    ensures errs == [] <==> ProfileErrors(f) == [] && ValidatorLength(f.password) >= MinPasswordLength
    ensures |errs| >= |ProfileErrors(f)| && errs[..|ProfileErrors(f)|] == ProfileErrors(f)
  {
    ProfileErrors(f) + (if ValidatorLength(f.password) < MinPasswordLength then [PasswordTooShort] else [])
  }

  /** An edit supplies a password only when it is non-empty, and then its JavaScript
      `length` must be at least six. */
  predicate PasswordRejected(password: string)
    ensures PasswordRejected(password) ==> 0 < |password| < MinPasswordLength
    ensures (forall i :: 0 <= i < |password| ==> password[i] as int < 0x1_0000) ==>
      (PasswordRejected(password) <==> 0 < |password| < MinPasswordLength)
  {
    password != "" && Utf16Length(password) < MinPasswordLength
  }

  /** The two password rules measure length differently: three emoji are six UTF-16 units,
      so an edit accepts them, while registration counts three characters and refuses them. */
  lemma PasswordRulesDiffer(f: UserForm)
    requires f.password == "\U{1F600}\U{1F600}\U{1F600}"
    ensures !PasswordRejected(f.password)
    ensures RegisterErrors(f) != []
  {
    var p := f.password;
    assert Utf16Length(p[3..]) == 0 && ValidatorLength(p[3..]) == 0;
    assert Utf16Length(p[2..]) == 2 && ValidatorLength(p[2..]) == 1;
    assert Utf16Length(p[1..]) == 4 && ValidatorLength(p[1..]) == 2;
    assert Utf16Length(p) == 6 && ValidatorLength(p) == 3;
  }

  predicate EmailInUse(users: map<UserId, User>, email: string) {
    exists id :: id in users && users[id].email == email
  }

  predicate PhoneInUse(users: map<UserId, User>, phone: string) {
    exists id :: id in users && users[id].phone == phone
  }

  /** No two users share an e-mail address or a phone number. */
  ghost predicate ContactsUnique(users: map<UserId, User>) {
    forall i, j :: i in users && j in users && i != j ==>
      users[i].email != users[j].email && users[i].phone != users[j].phone
  }

  /** The user after an edit: the six profile fields come from the form, the password
      hash is replaced only when a password is supplied, the rest is kept. */
  function Edited(u: User, f: UserForm, hash: string -> string): (v: User)
    ensures ProfileOf(v) == FormProfile(f)
    ensures v.password == if f.password != "" then hash(f.password) else u.password
    ensures v.date == u.date && v.isVerified == u.isVerified && v.otp == u.otp && v.otpExpiry == u.otpExpiry
  {
    var v := u.(firstname := f.firstname, lastname := f.lastname, email := f.email, phone := f.phone,
                dateOfBirth := f.dateOfBirth, articlePreferences := f.articlePreferences);
    if f.password != "" then v.(password := hash(f.password)) else v
  }

  /** Two edits in a row leave the same user as the second edit alone, except that
      a second edit without a password keeps the hash the first one set. The equalities
      rely on `hash` being a function: bcrypt draws a fresh salt on every call, so in the
      running system the stored hashes differ while both still verify the same password. */
  lemma EditsCompose(u: User, f: UserForm, g: UserForm, hash: string -> string)
    ensures g.password != "" ==> Edited(Edited(u, f, hash), g, hash) == Edited(u, g, hash)
    ensures g.password == "" ==> Edited(Edited(u, f, hash), g, hash) == Edited(u, g.(password := f.password), hash)
  {
  }

  /** Adding a user whose e-mail and phone are both unused keeps contacts unique. */
  lemma InsertKeepsContactsUnique(users: map<UserId, User>, id: UserId, u: User)
    requires ContactsUnique(users) && id !in users
    requires !EmailInUse(users, u.email) && !PhoneInUse(users, u.phone)
    ensures ContactsUnique(users[id := u])
  {
  }

  /** The user collection. `nextId` stands for the database's id generator: every stored id is below it. */
  class UserStore {
    var users: map<UserId, User>
    var nextId: UserId

    ghost predicate Valid()
      reads this
    {
      forall id :: id in users ==> id < nextId
    }

    constructor ()
      ensures Valid() && users == map[] && nextId == 0
    {
      users := map[];
      nextId := 0;
    }

    /** POST /: validate, refuse a taken e-mail, then a taken phone, then store the user with
        the hashed password. The answer carries the new id (the payload of the issued token). */
    method Register(form: UserForm, hash: string -> string, now: int) returns (r: Response<UserId>)
      requires Valid()
      modifies this
      ensures Valid()
      ensures RegisterErrors(form) != [] ==>
        r == Err(BadRequest, RegisterErrors(form)) && users == old(users) && nextId == old(nextId)
      ensures RegisterErrors(form) == [] && EmailInUse(old(users), form.email) ==>
        r == Err(BadRequest, [EmailTaken]) && users == old(users) && nextId == old(nextId)
      ensures RegisterErrors(form) == [] && !EmailInUse(old(users), form.email) && PhoneInUse(old(users), form.phone) ==>
        r == Err(BadRequest, [PhoneTaken]) && users == old(users) && nextId == old(nextId)
      ensures r.Ok? <==>
        RegisterErrors(form) == [] && !EmailInUse(old(users), form.email) && !PhoneInUse(old(users), form.phone)
      ensures r.Ok? ==>
        && r.body == old(nextId) && r.body !in old(users) && r.body in users && nextId == old(nextId) + 1
        && users == old(users)[r.body := users[r.body]]
        && ProfileOf(users[r.body]) == FormProfile(form)
        && users[r.body].password == hash(form.password)
        && users[r.body].date == now && !users[r.body].isVerified
        && users[r.body].otp == None && users[r.body].otpExpiry == None
      ensures ContactsUnique(old(users)) ==> ContactsUnique(users)
    {
      var errs := RegisterErrors(form);
      if errs != [] {
        return Err(BadRequest, errs);
      }
      if EmailInUse(users, form.email) {
        return Err(BadRequest, [EmailTaken]);
      }
      if PhoneInUse(users, form.phone) {
        return Err(BadRequest, [PhoneTaken]);
      }
      var user := User(form.firstname, form.lastname, form.email, form.phone, form.password,
                       form.dateOfBirth, form.articlePreferences, now, false, None, None);
      user := user.(password := hash(form.password));
      if ContactsUnique(users) {
        InsertKeepsContactsUnique(users, nextId, user);
      }
      users := users[nextId := user];
      r := Ok(nextId);
      nextId := nextId + 1;
    }

    /** PUT /edit: validate, refuse a short supplied password before the lookup, refuse a
        missing user, then overwrite the profile (and the hash when a password is given).
        The answer echoes the six profile fields and never the password. */
    method Edit(requester: UserId, form: UserForm, hash: string -> string) returns (r: Response<Profile>)
      requires Valid()
      modifies this
      ensures Valid() && nextId == old(nextId)
      ensures ProfileErrors(form) != [] ==>
        r == Err(BadRequest, ProfileErrors(form)) && users == old(users)
      ensures ProfileErrors(form) == [] && PasswordRejected(form.password) ==>
        r == Err(BadRequest, [PasswordTooShort]) && users == old(users)
      ensures ProfileErrors(form) == [] && !PasswordRejected(form.password) && requester !in old(users) ==>
        r == Err(BadRequest, [NoSuchUser]) && users == old(users)
      ensures r.Ok? <==>
        ProfileErrors(form) == [] && !PasswordRejected(form.password) && requester in old(users)
      ensures r.Ok? ==>
        && r.body == FormProfile(form)
        && users == old(users)[requester := Edited(old(users)[requester], form, hash)]
    {
      var errs := ProfileErrors(form);
      if errs != [] {
        return Err(BadRequest, errs);
      }
      if PasswordRejected(form.password) {
        return Err(BadRequest, [PasswordTooShort]);
      }
      if requester !in users {
        return Err(BadRequest, [NoSuchUser]);
      }
      var user := users[requester];
      user := user.(firstname := form.firstname);
      user := user.(lastname := form.lastname);
      user := user.(email := form.email);
      user := user.(phone := form.phone);
      user := user.(dateOfBirth := form.dateOfBirth);
      user := user.(articlePreferences := form.articlePreferences);
      if form.password != "" {
        user := user.(password := hash(form.password));
      }
      users := users[requester := user];
      r := Ok(Profile(form.firstname, form.lastname, form.email, form.phone,
                      form.dateOfBirth, form.articlePreferences));
    }
  }
}
