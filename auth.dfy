/** The auth router: the signup input schema (password strength, age from
    the date of birth, phone, SSN, state and zip formats), signup with its
    email conflict check, login with its two indistinguishable credential
    failures, and logout's session deletion. Bcrypt, the SSN HMAC and JWT
    signing are parameters; a JWT is a function of the user id and the second
    it is issued in, which is what `jwt.sign({ userId }, secret, ...)` makes it. */
module Auth {
  import opened Wrappers
  import opened Text
  import opened Store
  import opened Trpc

  // ---- Password strength ----

  predicate HasLower(s: string) { exists i :: 0 <= i < |s| && 'a' <= s[i] <= 'z' }
  predicate HasUpper(s: string) { exists i :: 0 <= i < |s| && 'A' <= s[i] <= 'Z' }
  predicate HasDigit(s: string) { exists i :: 0 <= i < |s| && IsDigit(s[i]) }
  predicate IsAlphanumeric(c: char) { 'a' <= c <= 'z' || 'A' <= c <= 'Z' || IsDigit(c) }
  /** `/[^A-Za-z0-9]/` */
  predicate HasSymbol(s: string) { exists i :: 0 <= i < |s| && !IsAlphanumeric(s[i]) }

  const MinPasswordLength: nat := 10
  const CommonPasswords: seq<string> := ["password", "12345678", "qwerty"]

  /** The last refinement: the lower-cased password is on the list. */
  predicate TooCommon(p: string) { ToLowerAscii(p) in CommonPasswords }

  /** What a strong password is: ten characters at least, with a lower-case
      letter, an upper-case letter, a digit and a symbol. */
  predicate PasswordStrong(p: string)
  {
    |p| >= MinPasswordLength && HasLower(p) && HasUpper(p) && HasDigit(p) && HasSymbol(p)
  }

  /** Every listed common password is shorter than the minimum length. */
  lemma CommonPasswordsAreShort(p: string)
    requires |p| >= MinPasswordLength
    ensures !TooCommon(p)
  {
    assert |ToLowerAscii(p)| >= MinPasswordLength;
    forall c | c in CommonPasswords ensures |c| < MinPasswordLength { }
  }

  /** The first failing check of the `password` schema, with its message; the
      "too common" check never fires, since it could only reject a password
      that the length check already rejects. */
  function PasswordIssue(p: string): (r: Option<string>)
    ensures r.None? <==> PasswordStrong(p)
  {
    if |p| < MinPasswordLength then Some("Password must be at least 10 characters")
    else if !HasLower(p) then Some("Password must contain a lowercase letter")
    else if !HasUpper(p) then Some("Password must contain an uppercase letter")
    else if !HasDigit(p) then Some("Password must contain a number")
    else if !HasSymbol(p) then Some("Password must contain a symbol")
    else
      CommonPasswordsAreShort(p);
      if TooCommon(p) then Some("Password is too common") else None
  }

  // ---- Age and date of birth ----

  /** `a` is on or before `b`, comparing (year, month, day). */
  predicate DateLeq(a: Date, b: Date)
  {
    a.year < b.year || (a.year == b.year && (a.month < b.month || (a.month == b.month && a.day <= b.day)))
  }

  /** `today` falls before the anniversary of `birth` in today's year. */
  predicate BeforeBirthday(birth: Date, today: Date)
  {
    today.month < birth.month || (today.month == birth.month && today.day < birth.day)
  }

  /** The age `calculateAgeFromISO` computes with `today` as the clock. */
  function AgeOn(birth: Date, today: Date): int
  {
    today.year - birth.year - (if BeforeBirthday(birth, today) then 1 else 0)
  }

  /** `n` anniversaries of `birth` have passed by `today`, and the next has not. */
  predicate CompletedYears(birth: Date, today: Date, n: int)
  {
    DateLeq(Date(birth.year + n, birth.month, birth.day), today)
    && !DateLeq(Date(birth.year + n + 1, birth.month, birth.day), today)
  }

  /** The age is the number of birthdays already reached, and no other number is. */
  lemma AgeIsCompletedYears(birth: Date, today: Date)
    ensures CompletedYears(birth, today, AgeOn(birth, today))
    ensures forall n :: CompletedYears(birth, today, n) ==> n == AgeOn(birth, today)
  {
    forall n | CompletedYears(birth, today, n) ensures n == AgeOn(birth, today) {
      if BeforeBirthday(birth, today) {
        assert birth.year + n < today.year;
        assert birth.year + n + 1 >= today.year;
      } else {
        assert birth.year + n <= today.year;
        assert birth.year + n + 1 > today.year;
      }
    }
  }

  /** `calculateAgeFromISO(dateStr)` with the date already parsed: None for a
      string `new Date` cannot parse (NaN), else the year difference,
      decremented when this year's birthday is still ahead. */
  method CalculateAgeFromIso(dob: Option<Date>, today: Date) returns (age: Option<int>)
    ensures age.None? <==> dob.None?
    ensures dob.Some? ==> CompletedYears(dob.value, today, age.value)
    ensures dob.Some? ==> age.value == AgeOn(dob.value, today)
  {
    if dob.None? {
      return None;
    }
    var d := dob.value;
    var years := today.year - d.year;
    var m := today.month - d.month;
    if m < 0 || (m == 0 && today.day < d.day) {
      years := years - 1;
    }
    AgeIsCompletedYears(d, today);
    return Some(years);
  }

  const MinAge: int := 18
  const MaxAge: int := 120

  /** The four `dateOfBirth` refinements together. */
  predicate DobAccepted(dob: Option<Date>, today: Date)
  {
    dob.Some? && DateLeq(dob.value, today) && MinAge <= AgeOn(dob.value, today) <= MaxAge
  }

  /** Whoever is 18 was born in the past: the "future" refinement never
      rejects a date the age refinement accepts. */
  lemma AdultBirthIsPast(birth: Date, today: Date)
    requires AgeOn(birth, today) >= MinAge
    ensures DateLeq(birth, today)
  {
    assert today.year - birth.year >= MinAge;
  }

  /** The first failing `dateOfBirth` refinement, with its message. A string
      that does not parse fails all four; the first is reported. */
  function DobIssue(dob: Option<Date>, today: Date): (r: Option<string>)
    ensures r.None? <==> DobAccepted(dob, today)
    ensures r.None? <==> dob.Some? && MinAge <= AgeOn(dob.value, today) <= MaxAge
  {
    if dob.None? then Some("Date of birth must be a valid date")
    else if !DateLeq(dob.value, today) then Some("Date of birth cannot be in the future")
    else if AgeOn(dob.value, today) < MinAge then Some("You must be at least 18 years old")
    else if AgeOn(dob.value, today) > MaxAge then Some("Age must be 120 or less")
    else (AdultBirthIsPast(dob.value, today); None)
  }

  // ---- The signup schema ----

  /** `/^\+?\d{10,15}$/` */
  predicate PhoneAccepted(p: string)
  {
    DigitRun(p, 10, 15) || (|p| >= 1 && p[0] == '+' && DigitRun(p[1..], 10, 15))
  }

  /** `z.string().length(2)`: any two characters, with no list of states. */
  predicate StateAccepted(s: string) { |s| == 2 }

  /** The signup input; `dateOfBirth` is what `new Date` makes of the string,
      None when it does not parse. */
  datatype SignupInput = SignupInput(
    email: string,
    password: string,
    firstName: string,
    lastName: string,
    phoneNumber: string,
    dateOfBirth: Option<Date>,
    ssn: string,
    address: string,
    city: string,
    state: string,
    zipCode: string)

  const TooShortMessage: string := "String must contain at least 1 character(s)"
  const MalformedMessage: string := "Invalid"

  /** Every field check of the signup schema; `isEmail` is zod's `.email()`. */
  predicate SignupAccepted(input: SignupInput, isEmail: string -> bool, today: Date)
  {
    && isEmail(input.email)
    && PasswordStrong(input.password)
    && |input.firstName| >= 1 && |input.lastName| >= 1
    && PhoneAccepted(input.phoneNumber)
    && DobAccepted(input.dateOfBirth, today)
    && DigitRun(input.ssn, 9, 9)
    && |input.address| >= 1 && |input.city| >= 1
    && StateAccepted(input.state)
    && DigitRun(input.zipCode, 5, 5)
  }

  /** The message of the first failing check, in the schema's field order. */
  function SignupIssue(input: SignupInput, isEmail: string -> bool, today: Date): (r: Option<string>)
    ensures r.None? <==> SignupAccepted(input, isEmail, today)
  {
    if !isEmail(input.email) then Some("Invalid email")
    else if PasswordIssue(input.password).Some? then PasswordIssue(input.password)
    else if |input.firstName| < 1 || |input.lastName| < 1 then Some(TooShortMessage)
    else if !PhoneAccepted(input.phoneNumber) then Some(MalformedMessage)
    else if DobIssue(input.dateOfBirth, today).Some? then DobIssue(input.dateOfBirth, today)
    else if !DigitRun(input.ssn, 9, 9) then Some(MalformedMessage)
    else if |input.address| < 1 || |input.city| < 1 then Some(TooShortMessage)
    else if !StateAccepted(input.state) then Some("String must contain exactly 2 character(s)")
    else if !DigitRun(input.zipCode, 5, 5) then Some(MalformedMessage)
    else None
  }

  /** The transforms of the schema: the email lower-cased, the state upper-cased. */
  function Normalize(input: SignupInput): (n: SignupInput)
    ensures |n.email| == |input.email| && LowerCase(n.email)
    ensures forall i :: 0 <= i < |input.email| ==>
      n.email[i] == input.email[i] || ('A' <= input.email[i] <= 'Z' && n.email[i] as int == input.email[i] as int + 32)
    ensures LowerCase(input.email) ==> n.email == input.email
    ensures |n.state| == |input.state| && UpperCase(n.state)
    ensures forall i :: 0 <= i < |input.state| ==>
      n.state[i] == input.state[i] || ('a' <= input.state[i] <= 'z' && n.state[i] as int == input.state[i] as int - 32)
    ensures UpperCase(input.state) ==> n.state == input.state
    ensures n.(email := input.email, state := input.state) == input
  {
    ToLowerAsciiLowers(input.email);
    ToUpperAsciiUppers(input.state);
    input.(email := ToLowerAscii(input.email), state := ToUpperAscii(input.state))
  }

  /** A phone number of 7 to 9 digits, which the international format with
      `{7,15}` would accept, is rejected. */
  lemma ShortPhoneRejected(p: string)
    requires DigitRun(p, 7, 9)
    ensures !PhoneAccepted(p)
  {
    assert |p| >= 1 && IsDigit(p[0]);
  }

  /** Any two characters pass as a state, with no whitelist of US states. */
  lemma AnyTwoCharactersAreAState(a: char, b: char)
    ensures StateAccepted([a, b])
    ensures ToUpperAscii([a, b]) == [UpperChar(a), UpperChar(b)]
  {
  }

  // ---- Users and sessions ----

  /** A session lasts seven days, in milliseconds. */
  const SessionLifetimeMs: int := 7 * 24 * 60 * 60 * 1000

  /** What SQLite reports when a session insert repeats a token. */
  const DuplicateTokenMessage: string := "UNIQUE constraint failed: sessions.token"
  const MissingSecretMessage: string := "SSN hashing secret is not configured"
  const InvalidCredentialsMessage: string := "Invalid credentials"

  /** The `users` row signup inserts for a normalised, accepted input. */
  function SignupRow(id: nat, data: SignupInput, hashedPassword: string, ssnHash: string): (u: User)
    requires data.dateOfBirth.Some?
    ensures u.id == id && u.email == data.email && u.password == hashedPassword && u.ssnHash == ssnHash
  {
    User(id, data.email, hashedPassword, data.firstName, data.lastName, data.phoneNumber,
         data.dateOfBirth.value, ssnHash, LastChars(data.ssn, 4), data.address, data.city, data.state, data.zipCode)
  }

  /** The stored `ssnLast4` of a 9-digit SSN is its last four digits. */
  lemma SignupKeepsLastFourOfSsn(id: nat, data: SignupInput, hashedPassword: string, ssnHash: string)
    requires data.dateOfBirth.Some? && DigitRun(data.ssn, 9, 9)
    ensures SignupRow(id, data, hashedPassword, ssnHash).ssnLast4 == data.ssn[5..]
    ensures DigitRun(SignupRow(id, data, hashedPassword, ssnHash).ssnLast4, 4, 4)
  {
  }

  /** The user as the response carries it: `{ ...user, password: undefined }`. */
  function Public(u: User): User { u.(password := "") }

  /** What signup and login return. */
  datatype AuthResult = AuthResult(user: User, token: string)

  /** A new user's id owns no session yet, so after the signup insert the
      user has exactly one session, the new one. */
  lemma NewUserOwnsOnlyNewSession(sessions: seq<Session>, users: seq<User>, nu: nat, ns: nat, s: Session)
    requires SessionsWellFormed(sessions, users, ns) && UsersWellFormed(users, nu) && s.userId == nu
    ensures forall x :: x in sessions + [s] && x.userId == nu <==> x == s
  {
    forall x | x in sessions ensures x.userId != nu {
      var i :| 0 <= i < |sessions| && sessions[i] == x;
      var j :| 0 <= j < |users| && users[j].id == x.userId;
    }
  }

  /** `signup(input)`: the schema, the CONFLICT check on the normalised email,
      the SSN secret check, the user insert and read-back, then the session
      insert, which is not in a transaction with the user insert: a repeated
      token leaves the user row in place. `sign(userId, second)` is the JWT. */
  method Signup(db: Database, input: SignupInput, isEmail: string -> bool, today: Date, now: int,
                hashedPassword: string, ssnSecret: string, hmac: (string, string) -> string,
                sign: (nat, int) -> string) returns (r: Result<AuthResult>)
    requires db.Valid()
    modifies db`users, db`nextUserId, db`sessions, db`nextSessionId
    ensures db.Valid()
    ensures SignupIssue(input, isEmail, today).Some? ==>
      r == Err(ApiError(BadRequest, SignupIssue(input, isEmail, today).value))
    ensures SignupIssue(input, isEmail, today).None? && Normalize(input).email in Emails(old(db.users)) ==>
      r == Err(ApiError(Conflict, "User already exists"))
    ensures SignupIssue(input, isEmail, today).None? && Normalize(input).email !in Emails(old(db.users)) && ssnSecret == "" ==>
      r == Err(ApiError(InternalServerError, MissingSecretMessage))
    ensures r.Err? && (r.error.code == BadRequest || r.error.code == Conflict || r.error.message == MissingSecretMessage) ==>
      db.users == old(db.users) && db.nextUserId == old(db.nextUserId)
      && db.sessions == old(db.sessions) && db.nextSessionId == old(db.nextSessionId)
    ensures SignupIssue(input, isEmail, today).None? && Normalize(input).email !in Emails(old(db.users)) && ssnSecret != "" ==>
      var u := SignupRow(old(db.nextUserId), Normalize(input), hashedPassword, hmac(ssnSecret, input.ssn));
      var token := sign(u.id, now / 1000);
      && db.users == old(db.users) + [u] && db.nextUserId == old(db.nextUserId) + 1
      && (token in Tokens(old(db.sessions)) ==>
            r == Err(ApiError(InternalServerError, DuplicateTokenMessage))
            && db.sessions == old(db.sessions) && db.nextSessionId == old(db.nextSessionId))
      && (token !in Tokens(old(db.sessions)) ==>
            r == Ok(AuthResult(Public(u), token))
            && db.sessions == old(db.sessions) + [Session(old(db.nextSessionId), u.id, token, now + SessionLifetimeMs)]
            && db.nextSessionId == old(db.nextSessionId) + 1)
  {
    var issue := SignupIssue(input, isEmail, today);
    if issue.Some? {
      return Err(ApiError(BadRequest, issue.value));
    }
    var data := Normalize(input);
    var existing := FindUserByEmail(db.users, data.email);
    if existing.Some? {
      return Err(ApiError(Conflict, "User already exists"));
    }
    if ssnSecret == "" {
      return Err(ApiError(InternalServerError, MissingSecretMessage));
    }
    assert data.ssn == input.ssn;
    r := Register(db, data, hashedPassword, hmac(ssnSecret, data.ssn), now, sign);
  }

  /** The writes of signup once every check has passed: the user row, then
      the session row under the token signed for the new id. */
  method Register(db: Database, data: SignupInput, hashedPassword: string, ssnHash: string, now: int,
                  sign: (nat, int) -> string) returns (r: Result<AuthResult>)
    requires db.Valid() && data.dateOfBirth.Some?
    requires data.email !in Emails(db.users) && LowerCase(data.email)
    modifies db`users, db`nextUserId, db`sessions, db`nextSessionId
    ensures db.Valid()
    ensures
      var u := SignupRow(old(db.nextUserId), data, hashedPassword, ssnHash);
      var token := sign(u.id, now / 1000);
      && db.users == old(db.users) + [u] && db.nextUserId == old(db.nextUserId) + 1
      && (token in Tokens(old(db.sessions)) ==>
            r == Err(ApiError(InternalServerError, DuplicateTokenMessage))
            && db.sessions == old(db.sessions) && db.nextSessionId == old(db.nextSessionId))
      && (token !in Tokens(old(db.sessions)) ==>
            r == Ok(AuthResult(Public(u), token))
            && db.sessions == old(db.sessions) + [Session(old(db.nextSessionId), u.id, token, now + SessionLifetimeMs)]
            && db.nextSessionId == old(db.nextSessionId) + 1)
  {
    var user := CreateUser(db, data, hashedPassword, ssnHash);
    var token := sign(user.id, now / 1000);
    assert user in db.users;
    var inserted := OpenSession(db, user.id, token, now);
    if !inserted {
      return Err(ApiError(InternalServerError, DuplicateTokenMessage));
    }
    return Ok(AuthResult(Public(user), token));
  }

  /** The user insert of signup and the read-back by email that follows it. */
  method CreateUser(db: Database, data: SignupInput, hashedPassword: string, ssnHash: string) returns (user: User)
    requires db.Valid() && data.dateOfBirth.Some?
    requires data.email !in Emails(db.users) && LowerCase(data.email)
    modifies db`users, db`nextUserId
    ensures db.Valid()
    ensures user == SignupRow(old(db.nextUserId), data, hashedPassword, ssnHash)
    ensures db.users == old(db.users) + [user] && db.nextUserId == old(db.nextUserId) + 1
  {
    var row := SignupRow(db.nextUserId, data, hashedPassword, ssnHash);
    ReadBackFindsUser(db.users, row);
    db.InsertUser(row);
    var found := FindUserByEmail(db.users, data.email);
    user := found.value;
  }

  /** The session insert of signup and login: a token already in the table
      breaks the UNIQUE constraint and nothing is inserted. */
  method OpenSession(db: Database, userId: nat, token: string, now: int) returns (inserted: bool)
    requires db.Valid() && userId in UserIds(db.users)
    modifies db`sessions, db`nextSessionId
    ensures db.Valid()
    ensures inserted <==> token !in Tokens(old(db.sessions))
    ensures inserted ==>
      db.sessions == old(db.sessions) + [Session(old(db.nextSessionId), userId, token, now + SessionLifetimeMs)]
      && db.nextSessionId == old(db.nextSessionId) + 1
    ensures !inserted ==> db.sessions == old(db.sessions) && db.nextSessionId == old(db.nextSessionId)
  {
    if token in Tokens(db.sessions) {
      return false;
    }
    db.InsertSession(Session(db.nextSessionId, userId, token, now + SessionLifetimeMs));
    return true;
  }

  /** The user `login` lets in: the one stored under the email as typed, when
      `compare` accepts the password against its hash. */
  function Authenticate(users: seq<User>, email: string, password: string,
                        compare: (string, string) -> bool): (r: Option<User>)
    ensures r.Some? ==> r.value in users && r.value.email == email && compare(password, r.value.password)
  {
    match FindUserByEmail(users, email)
    case None => None
    case Some(u) => if compare(password, u.password) then Some(u) else None
  }

  /** With unique emails, login lets in exactly the user stored under that
      email whose password hash matches: an unknown email and a wrong
      password are the same refusal. */
  lemma AuthenticateIsTheOwner(users: seq<User>, nextId: nat, email: string, password: string,
                               compare: (string, string) -> bool, u: User)
    requires UsersWellFormed(users, nextId)
    ensures Authenticate(users, email, password, compare) == Some(u) <==>
      u in users && u.email == email && compare(password, u.password)
  {
    if u in users && u.email == email && compare(password, u.password) {
      var f := FindUserByEmail(users, email);
      assert email in Emails(users);
      var i :| 0 <= i < |users| && users[i] == u;
      var j :| 0 <= j < |users| && users[j] == f.value;
      assert i == j;
    }
  }

  /** `login({ email, password })`: an unknown email and a wrong password give
      the same UNAUTHORIZED error; a match adds a session and leaves the
      user's earlier sessions in place. The email is not lower-cased.
      `compare` is `bcrypt.compare`. */
  method Login(db: Database, email: string, password: string, isEmail: string -> bool,
               compare: (string, string) -> bool, now: int, sign: (nat, int) -> string) returns (r: Result<AuthResult>)
    requires db.Valid()
    modifies db`sessions, db`nextSessionId
    ensures db.Valid()
    ensures !isEmail(email) ==> r == Err(ApiError(BadRequest, "Invalid email"))
    ensures isEmail(email) && Authenticate(db.users, email, password, compare).None? ==>
      r == Err(ApiError(Unauthorized, InvalidCredentialsMessage))
    ensures isEmail(email) && Authenticate(db.users, email, password, compare).Some? ==>
      var u := Authenticate(db.users, email, password, compare).value;
      var token := sign(u.id, now / 1000);
      && (token in Tokens(old(db.sessions)) ==> r == Err(ApiError(InternalServerError, DuplicateTokenMessage)))
      && (token !in Tokens(old(db.sessions)) ==>
            && r == Ok(AuthResult(Public(u), token))
            && db.sessions == old(db.sessions) + [Session(old(db.nextSessionId), u.id, token, now + SessionLifetimeMs)]
            && db.nextSessionId == old(db.nextSessionId) + 1)
    ensures r.Err? ==> db.sessions == old(db.sessions) && db.nextSessionId == old(db.nextSessionId)
  {
    if !isEmail(email) {
      return Err(ApiError(BadRequest, "Invalid email"));
    }
    var user := FindUserByEmail(db.users, email);
    if user.None? {
      return Err(ApiError(Unauthorized, InvalidCredentialsMessage));
    }
    var validPassword := compare(password, user.value.password);
    if !validPassword {
      return Err(ApiError(Unauthorized, InvalidCredentialsMessage));
    }
    var token := sign(user.value.id, now / 1000);
    var inserted := OpenSession(db, user.value.id, token, now);
    if !inserted {
      return Err(ApiError(InternalServerError, DuplicateTokenMessage));
    }
    return Ok(AuthResult(Public(user.value), token));
  }

  /** Stored emails are lower-case, and login looks the email up as typed: an
      email with a capital letter finds nobody, even the user who signed up
      with exactly that address. */
  lemma CapitalisedEmailFindsNobody(users: seq<User>, nextId: nat, email: string)
    requires UsersWellFormed(users, nextId) && !LowerCase(email)
    ensures FindUserByEmail(users, email).None?
  {
    forall u | u in users ensures u.email != email {
      var i :| 0 <= i < |users| && users[i] == u;
    }
  }

  /** Signup, past its checks, followed within the same second by login as
      the same user: both sign the same JWT, and the login's session insert
      hits the UNIQUE constraint on `token`. */
  method LoginInSignupSecond(db: Database, data: SignupInput, hashedPassword: string, ssnHash: string,
                             isEmail: string -> bool, compare: (string, string) -> bool,
                             sign: (nat, int) -> string, t0: int, t1: int)
    returns (signedUp: Result<AuthResult>, loggedIn: Result<AuthResult>)
    requires db.Valid() && data.dateOfBirth.Some?
    requires data.email !in Emails(db.users) && LowerCase(data.email)
    requires sign(db.nextUserId, t0 / 1000) !in Tokens(db.sessions)
    requires isEmail(data.email) && compare(data.password, hashedPassword)
    requires t0 / 1000 == t1 / 1000
    modifies db`users, db`nextUserId, db`sessions, db`nextSessionId
    ensures db.Valid()
    ensures signedUp.Ok?
    ensures loggedIn == Err(ApiError(InternalServerError, DuplicateTokenMessage))
  {
    ghost var uid, users0, ns := db.nextUserId, db.users, db.nextSessionId;
    ghost var token := sign(uid, t0 / 1000);
    ghost var row := SignupRow(uid, data, hashedPassword, ssnHash);
    signedUp := Register(db, data, hashedPassword, ssnHash, t0, sign);
    ReadBackFindsUser(users0, row);
    assert Authenticate(db.users, data.email, data.password, compare) == Some(row);
    assert token in Tokens(db.sessions) by { assert Session(ns, uid, token, t0 + SessionLifetimeMs) in db.sessions; }
    loggedIn := Login(db, data.email, data.password, isEmail, compare, t1, sign);
  }

  /** Signup, past its checks, followed by a login that signs a different
      token: the login succeeds and appends its session, so the user owns
      two sessions (`SessionsOfNewUser`), since login deletes none. */
  method LoginAfterSignup(db: Database, data: SignupInput, hashedPassword: string, ssnHash: string,
                          isEmail: string -> bool, compare: (string, string) -> bool,
                          sign: (nat, int) -> string, t0: int, t1: int)
    returns (signedUp: Result<AuthResult>, loggedIn: Result<AuthResult>)
    requires db.Valid() && data.dateOfBirth.Some?
    requires data.email !in Emails(db.users) && LowerCase(data.email)
    requires sign(db.nextUserId, t0 / 1000) !in Tokens(db.sessions)
    requires sign(db.nextUserId, t1 / 1000) !in Tokens(db.sessions)
    requires sign(db.nextUserId, t1 / 1000) != sign(db.nextUserId, t0 / 1000)
    requires isEmail(data.email) && compare(data.password, hashedPassword)
    modifies db`users, db`nextUserId, db`sessions, db`nextSessionId
    ensures db.Valid()
    ensures signedUp.Ok? && loggedIn.Ok?
    ensures var uid, ns := old(db.nextUserId), old(db.nextSessionId);
      db.sessions == old(db.sessions)
        + [Session(ns, uid, signedUp.value.token, t0 + SessionLifetimeMs)]
        + [Session(ns + 1, uid, loggedIn.value.token, t1 + SessionLifetimeMs)]
  {
    ghost var uid, users0, sessions0 := db.nextUserId, db.users, db.sessions;
    ghost var first, second := sign(uid, t0 / 1000), sign(uid, t1 / 1000);
    ghost var row := SignupRow(uid, data, hashedPassword, ssnHash);
    signedUp := Register(db, data, hashedPassword, ssnHash, t0, sign);
    ReadBackFindsUser(users0, row);
    assert Authenticate(db.users, data.email, data.password, compare) == Some(row);
    TokenOfAppend(sessions0, db.sessions[|sessions0|]);
    assert second !in Tokens(db.sessions);
    loggedIn := Login(db, data.email, data.password, isEmail, compare, t1, sign);
  }

  /** After a signup session and a login session, the new user owns exactly those two. */
  lemma SessionsOfNewUser(sessions: seq<Session>, users: seq<User>, nu: nat, ns: nat, s1: Session, s2: Session)
    requires SessionsWellFormed(sessions, users, ns) && UsersWellFormed(users, nu)
    requires s1.userId == nu && s2.userId == nu
    ensures forall x :: x in sessions + [s1] + [s2] && x.userId == nu ==> x == s1 || x == s2
  {
    NewUserOwnsOnlyNewSession(sessions, users, nu, ns, s1);
  }

  lemma TokenOfAppend(sessions: seq<Session>, s: Session)
    ensures Tokens(sessions + [s]) == Tokens(sessions) + {s.token}
  {
  }

  // ---- Logout ----

  /** How the request carries its cookies: an already parsed jar, or the raw
      `Cookie` header (None when missing or empty). */
  datatype LogoutRequest = WithCookies(cookies: map<string, string>) | WithHeader(header: Option<string>)

  const SessionPrefix: string := "session="

  /** `.find(c => c.startsWith("session="))` */
  function FirstSessionPiece(pieces: seq<string>): (r: Option<string>)
    ensures r.Some? ==> r.value in pieces && StartsWith(r.value, SessionPrefix)
    ensures r.None? ==> forall p :: p in pieces ==> !StartsWith(p, SessionPrefix)
  {
    if pieces == [] then None
    else if StartsWith(pieces[0], SessionPrefix) then Some(pieces[0])
    else FirstSessionPiece(pieces[1..])
  }

  /** A piece that starts with `session=` has at least two `=`-separated fields. */
  lemma SessionPieceHasValue(p: string)
    requires StartsWith(p, SessionPrefix)
    ensures |Split(p, "=")| >= 2
  {
    assert OccursAt(p, "=", 7) by { assert p[7..8] == SessionPrefix[7..8]; }
  }

  /** The token logout reads from a raw header: the first `session=` piece,
      cut at its second `=` (`split("=")[1]`). */
  function HeaderSessionValue(header: Option<string>): Option<string>
  {
    match header
    case None => None
    case Some(h) =>
      match FirstSessionPiece(Split(h, CookieSeparator))
      case None => None
      case Some(p) => SessionPieceHasValue(p); Some(Split(p, "=")[1])
  }

  /** `token` in `logout`. */
  function LogoutToken(req: LogoutRequest): Option<string>
  {
    match req
    case WithCookies(c) => if SessionCookie in c then Some(c[SessionCookie]) else None
    case WithHeader(h) => HeaderSessionValue(h)
  }

  datatype LogoutResult = LogoutResult(success: bool, message: string)

  /** `logout()`: with a user in the context and a truthy token, delete the
      session rows with that token. The result is a success either way. */
  method Logout(db: Database, ctx: Context, req: LogoutRequest) returns (res: LogoutResult)
    requires db.Valid()
    modifies db`sessions
    ensures db.Valid()
    ensures res.success
    ensures res.message == if ctx.user.Some? then "Logged out successfully" else "No active session"
    ensures ctx.user.Some? && LogoutToken(req).Some? && LogoutToken(req).value != "" ==>
      db.sessions == DeleteByToken(old(db.sessions), LogoutToken(req).value)
    ensures !(ctx.user.Some? && LogoutToken(req).Some? && LogoutToken(req).value != "") ==>
      db.sessions == old(db.sessions)
  {
    if ctx.user.Some? {
      var token: Option<string>;
      match req {
        case WithCookies(c) =>
          token := if SessionCookie in c then Some(c[SessionCookie]) else None;
        case WithHeader(h) =>
          token := HeaderSessionValue(h);
      }
      if token.Some? && token.value != "" {
        db.DeleteSession(token.value);
      }
    }
    res := LogoutResult(true, if ctx.user.Some? then "Logged out successfully" else "No active session");
  }

  /** Once the token's session rows are deleted, the same cookie builds an
      anonymous context: the request is no longer let in as any user. */
  lemma LoggedOutCookieIsAnonymous(sessions: seq<Session>, users: seq<User>, nextId: nat, header: string,
                                   now: int, env: BufferSetting, verify: string -> Option<nat>, token: string)
    requires SessionsWellFormed(sessions, users, nextId) && RequestToken(header) == Some(token)
    ensures Decide(DeleteByToken(sessions, token), header, now, env, verify) == Anonymous
  {
    DeletePreservesSessions(sessions, users, nextId, token);
  }

  /** Logout and `createContext` read a header differently: for
      `session=a=b` logout deletes the token `a` while the context looks up
      `a=b`. */
  lemma LogoutCutsTokenAtEquals(a: string, b: string)
    requires a != ""
    requires forall i :: 0 <= i < |a| ==> a[i] != ';' && a[i] != '='
    requires forall i :: 0 <= i < |b| ==> b[i] != ';'
    ensures HeaderSessionValue(Some(SessionCookie + "=" + (a + "=" + b))) == Some(a)
    ensures RequestToken(SessionCookie + "=" + (a + "=" + b)) == Some(a + "=" + b)
  {
    var v := a + "=" + b;
    NoSemicolonInValue(a, b);
    SingleSessionCookie(v);
    NoSemicolonInHeader(v);
    SinglePieceHeader(SessionCookie + "=" + v);
    CutAtSecondEquals(a, b);
  }

  /** A header without `;` is one piece; if it is a `session=` piece, logout
      takes its second `=`-separated field. */
  lemma SinglePieceHeader(h: string)
    requires forall i :: 0 <= i < |h| ==> h[i] != ';'
    requires StartsWith(h, SessionPrefix)
    ensures |Split(h, "=")| >= 2 && HeaderSessionValue(Some(h)) == Some(Split(h, "=")[1])
  {
    NoSemicolonNoSeparator(h);
    assert Split(h, CookieSeparator) == [h];
    assert FirstSessionPiece([h]) == Some(h);
    SessionPieceHasValue(h);
  }

  /** The second `=`-field of `session=a=b` is `a`. */
  lemma CutAtSecondEquals(a: string, b: string)
    requires forall i :: 0 <= i < |a| ==> a[i] != '='
    ensures |Split(SessionCookie + "=" + (a + "=" + b), "=")| >= 2
    ensures Split(SessionCookie + "=" + (a + "=" + b), "=")[1] == a
  {
    var v := a + "=" + b;
    SessionPieceFields(v);
    SplitAfterPrefix(a, '=', "=" + b);
    assert ("=" + b)[1..] == b && v == a + ("=" + b);
  }

  /** A `session=` piece splits at `=` into the cookie name and the value's own fields. */
  lemma SessionPieceFields(v: string)
    ensures Split(SessionCookie + "=" + v, "=") == [SessionCookie] + Split(v, "=")
  {
    var name := SessionCookie;
    assert name == ['s', 'e', 's', 's', 'i', 'o', 'n'];
    forall i | 0 <= i < |name| ensures name[i] != '=' {
      assert name[i] in {'s', 'e', 'i', 'o', 'n'};
    }
    SplitAfterPrefix(name, '=', "=" + v);
    assert ("=" + v)[1..] == v && name + "=" + v == name + ("=" + v);
  }

  lemma NoSemicolonInValue(a: string, b: string)
    requires forall i :: 0 <= i < |a| ==> a[i] != ';'
    requires forall i :: 0 <= i < |b| ==> b[i] != ';'
    ensures forall i :: 0 <= i < |a + "=" + b| ==> (a + "=" + b)[i] != ';'
  {
    var v := a + "=" + b;
    forall i | 0 <= i < |v| ensures v[i] != ';' {
      if i < |a| { assert v[i] == a[i]; } else if i > |a| { assert v[i] == b[i - |a| - 1]; }
    }
  }

  lemma NoSemicolonInHeader(v: string)
    requires forall i :: 0 <= i < |v| ==> v[i] != ';'
    ensures forall i :: 0 <= i < |SessionCookie + "=" + v| ==> (SessionCookie + "=" + v)[i] != ';'
    ensures StartsWith(SessionCookie + "=" + v, SessionPrefix)
  {
    var h := SessionCookie + "=" + v;
    assert h[..8] == SessionPrefix;
    forall i | 0 <= i < |h| ensures h[i] != ';' {
      if i >= 8 { assert h[i] == v[i - 8]; }
    }
  }
}
