/** Teacher registration and login with lockout: three wrong passwords in a row lock an account
    for thirty minutes; a correct password on an unlocked account clears the count.

    Time is milliseconds since the epoch, passed in as `now` (one instant per request). The
    password hash and its comparison are parameters: `hash` stands for `bcrypt.hash` and
    `matches(password, stored)` for `bcrypt.compare`. */
module AuthController {
  import opened Wrappers
  import opened Text
  import opened ExamModel
  import ExamJobs

  /** A stored teacher; `lockUntil` is absent until the first lock. */
  datatype User = User(firstName: string, lastName: string, email: string, passwordHash: string,
                       loginAttempts: int, lockUntil: Option<int>)

  const MaxAttempts := 3
  const LockMillis := 30 * 60 * 1000
  const MillisPerMinute := 60 * 1000

  const MissingFields := Response(400, "First name, last name, email and password are required")
  const EmailTaken := Response(400, "Teacher with this email already exists")
  const Registered := Response(201, "Teacher registered successfully")
  const MissingCredentials := Response(400, "Email and password are required")
  const UnknownEmail := Response(401, "User not found with this email")
  const LockedNow := Response(401, "Account locked for 30 minutes due to 3 failed login attempts.")
  const LoggedIn := Response(200, "Login successful")

  /** The account refuses logins at `now`. */
  predicate Locked(u: User, now: int)
  {
    u.lockUntil.Some? && u.lockUntil.value > now
  }

  function LockedMessage(minutes: int): string
  {
    "Account is temporarily locked due to multiple failed login attempts. Please try again in " +
    IntToString(minutes) + " minutes."
  }

  function RemainingMessage(remaining: int): string
  {
    "Incorrect password. You have " + IntToString(remaining) + " attempts remaining before your account is locked."
  }

  /** The whole minutes, rounded up, until the lock ends. */
  function MinutesLeft(u: User, now: int): (m: int)
    requires Locked(u, now)
    ensures m >= 1
    ensures (m - 1) * MillisPerMinute < u.lockUntil.value - now <= m * MillisPerMinute
  {
    ExamJobs.CeilDiv(u.lockUntil.value - now, MillisPerMinute)
  }

  /** What a login with a found account does to it and answers, given whether the password matched. */
  function LoginStep(u: User, passwordMatches: bool, now: int): (User, Response)
  {
    if Locked(u, now) then (u, Response(403, LockedMessage(MinutesLeft(u, now))))
    else if !passwordMatches then
      var attempts := u.loginAttempts + 1;
      if attempts >= MaxAttempts then (u.(loginAttempts := attempts, lockUntil := Some(now + LockMillis)), LockedNow)
      else (u.(loginAttempts := attempts), Response(401, RemainingMessage(MaxAttempts - attempts)))
    else (u.(loginAttempts := 0, lockUntil := None), LoggedIn)
  }

  /** A whole login request on the user collection. */
  function Login(users: map<string, User>, email: string, password: string,
                 matches: (string, string) -> bool, now: int): (map<string, User>, Response)
  {
    if email == "" || password == "" then (users, MissingCredentials)
    else if email !in users then (users, UnknownEmail)
    else
      var step := LoginStep(users[email], matches(password, users[email].passwordHash), now);
      (users[email := step.0], step.1)
  }

  /** A whole registration request on the user collection. */
  function Register(users: map<string, User>, firstName: string, lastName: string, email: string, password: string,
                    hash: string -> string): (map<string, User>, Response)
  {
    if firstName == "" || lastName == "" || email == "" || password == "" then (users, MissingFields)
    else if email in users then (users, EmailTaken)
    else (users[email := User(firstName, lastName, email, hash(password), 0, None)], Registered)
  }

  /* ---------------- properties of login ---------------- */

  /** A missing email or password is refused with 400 before any lookup, an unknown email with 401; neither changes anything. */
  lemma LoginRefusals(users: map<string, User>, email: string, password: string, matches: (string, string) -> bool, now: int)
    ensures email == "" || password == "" ==> Login(users, email, password, matches, now) == (users, MissingCredentials)
    ensures email != "" && password != "" && email !in users ==> Login(users, email, password, matches, now) == (users, UnknownEmail)
    ensures email !in users ==> Login(users, email, password, matches, now).0 == users
  {
  }

  /** While locked, login answers 403 with the minutes left, rounded up, without looking at the
      password and without changing the account. */
  lemma LockedLoginChangesNothing(u: User, passwordMatches: bool, now: int)
    requires Locked(u, now)
    ensures LoginStep(u, passwordMatches, now).0 == u
    ensures LoginStep(u, passwordMatches, now) == LoginStep(u, !passwordMatches, now)
    ensures LoginStep(u, passwordMatches, now).1.code == 403
    ensures exists m: int :: (LoginStep(u, passwordMatches, now).1.message == LockedMessage(m) &&
                              (m - 1) * MillisPerMinute < u.lockUntil.value - now <= m * MillisPerMinute)
  {
    var m := MinutesLeft(u, now);
    assert LoginStep(u, passwordMatches, now).1.message == LockedMessage(m);
  }

  /** A wrong password on an unlocked account adds exactly one attempt and answers 401; reaching
      three locks the account for thirty minutes from now, below three the lock is left as it was. */
  lemma WrongPasswordCounts(u: User, now: int)
    requires !Locked(u, now)
    ensures LoginStep(u, false, now).0.loginAttempts == u.loginAttempts + 1
    ensures LoginStep(u, false, now).1.code == 401
    ensures u.loginAttempts + 1 >= 3 ==> LoginStep(u, false, now).0.lockUntil == Some(now + 1_800_000) && LoginStep(u, false, now).1 == LockedNow
    ensures u.loginAttempts + 1 < 3 ==>
      LoginStep(u, false, now).0.lockUntil == u.lockUntil && LoginStep(u, false, now).1.message == RemainingMessage(3 - (u.loginAttempts + 1))
    ensures LoginStep(u, false, now).0.(loginAttempts := u.loginAttempts, lockUntil := u.lockUntil) == u
  {
  }

  /** A correct password on an unlocked account clears the count and the lock. */
  lemma CorrectPasswordResets(u: User, now: int)
    requires !Locked(u, now)
    ensures LoginStep(u, true, now) == (u.(loginAttempts := 0, lockUntil := None), LoggedIn)
    ensures !Locked(LoginStep(u, true, now).0, now)
  {
  }

  /** A lock set at `now` refuses exactly the logins before `now` plus thirty minutes, and the
      minutes it quotes are between 1 and 30. */
  lemma LockLastsThirtyMinutes(u: User, now: int, later: int)
    requires !Locked(u, now) && u.loginAttempts + 1 >= 3 && now <= later
    ensures Locked(LoginStep(u, false, now).0, later) <==> later < now + LockMillis
    ensures Locked(LoginStep(u, false, now).0, later) ==> 1 <= MinutesLeft(LoginStep(u, false, now).0, later) <= 30
  {
    var locked := LoginStep(u, false, now).0;
    if Locked(locked, later) {
      var m := MinutesLeft(locked, later);
      assert (m - 1) * MillisPerMinute < LockMillis;
    }
  }

  /** Three wrong passwords on a fresh account lock it at the third attempt, for thirty minutes. */
  lemma {:induction false} ThreeStrikes(u: User, t1: int, t2: int, t3: int)
    requires u.loginAttempts == 0 && u.lockUntil == None && t1 <= t2 <= t3
    ensures var u1 := LoginStep(u, false, t1).0;
            var u2 := LoginStep(u1, false, t2).0;
            var u3 := LoginStep(u2, false, t3).0;
            u1.loginAttempts == 1 && u2.loginAttempts == 2 && !Locked(u2, t3) &&
            u3.loginAttempts == 3 && u3.lockUntil == Some(t3 + LockMillis) &&
            LoginStep(u2, false, t3).1 == LockedNow &&
            LoginStep(u, false, t1).1.message == RemainingMessage(2) && LoginStep(u1, false, t2).1.message == RemainingMessage(1)
  {
    var u1 := LoginStep(u, false, t1).0;
    WrongPasswordCounts(u, t1);
    WrongPasswordCounts(u1, t2);
    WrongPasswordCounts(LoginStep(u1, false, t2).0, t3);
  }

  /** The count is not cleared when a lock runs out: the first wrong password after it locks the account again at once. */
  lemma RelocksAfterExpiry(u: User, now: int)
    requires u.loginAttempts >= 2 && !Locked(u, now)
    ensures Locked(LoginStep(u, false, now).0, now)
    ensures LoginStep(u, false, now).0.lockUntil == Some(now + LockMillis)
    ensures LoginStep(u, false, now).1 == LockedNow
  {
  }

  /* ---------------- properties of registration ---------------- */

  /** Registration refuses a missing field before looking at the stored users, then a taken
      email; otherwise it adds exactly one account under that email, with the hash of the
      password rather than the password, no failed attempts and no lock. */
  lemma RegisterOutcome(users: map<string, User>, firstName: string, lastName: string, email: string, password: string, hash: string -> string)
    ensures (firstName == "" || lastName == "" || email == "" || password == "") ==>
      Register(users, firstName, lastName, email, password, hash) == (users, MissingFields)
    ensures firstName != "" && lastName != "" && email != "" && password != "" && email in users ==>
      Register(users, firstName, lastName, email, password, hash) == (users, EmailTaken)
    ensures Register(users, firstName, lastName, email, password, hash).1 == Registered <==>
      firstName != "" && lastName != "" && email != "" && password != "" && email !in users
    ensures Register(users, firstName, lastName, email, password, hash).1 == Registered ==>
      var after := Register(users, firstName, lastName, email, password, hash).0;
      after.Keys == users.Keys + {email} &&
      (forall e :: e in users ==> after[e] == users[e]) &&
      after[email].passwordHash == hash(password) && after[email].loginAttempts == 0 && after[email].lockUntil == None
  {
  }

  /** A teacher who just registered can log in with the same password, provided the hash
      comparison accepts the password it hashed. */
  lemma RegisterThenLogin(users: map<string, User>, firstName: string, lastName: string, email: string, password: string,
                          hash: string -> string, matches: (string, string) -> bool, now: int)
    requires firstName != "" && lastName != "" && email != "" && password != "" && email !in users
    requires matches(password, hash(password))
    ensures Login(Register(users, firstName, lastName, email, password, hash).0, email, password, matches, now).1 == LoggedIn
  {
  }

  /** The user collection kept by the server. */
  class AuthService {
    var users: map<string, User>

    constructor ()
      ensures users == map[]
    {
      users := map[];
    }

    /** `register`. */
    method RegisterTeacher(firstName: string, lastName: string, email: string, password: string, hash: string -> string)
      returns (r: Response)
      modifies this
      ensures (users, r) == Register(old(users), firstName, lastName, email, password, hash)
    {
      if firstName == "" || lastName == "" || email == "" || password == "" {
        return MissingFields;
      }
      if email in users {
        return EmailTaken;
      }
      var hashedPassword := hash(password);
      users := users[email := User(firstName, lastName, email, hashedPassword, 0, None)];
      r := Registered;
    }

    /** `login`: counts failed attempts on the stored account and locks it at the third. */
    method LoginTeacher(email: string, password: string, matches: (string, string) -> bool, now: int)
      returns (r: Response)
      modifies this
      ensures (users, r) == Login(old(users), email, password, matches, now)
    {
      if email == "" || password == "" {
        return MissingCredentials;
      }
      if email !in users {
        return UnknownEmail;
      }
      var user := users[email];
      if user.lockUntil.Some? && user.lockUntil.value > now {
        var remainingTime := ExamJobs.CeilDiv(user.lockUntil.value - now, MillisPerMinute);
        assert remainingTime == MinutesLeft(user, now) && users[email := user] == users;
        return Response(403, LockedMessage(remainingTime));
      }
      var isMatch := matches(password, user.passwordHash);
      if !isMatch {
        user := user.(loginAttempts := user.loginAttempts + 1);
        var message := "Incorrect password.";
        if user.loginAttempts >= MaxAttempts {
          user := user.(lockUntil := Some(now + LockMillis));
          message := LockedNow.message;
        } else {
          var remainingAttempts := MaxAttempts - user.loginAttempts;
          message := RemainingMessage(remainingAttempts);
        }
        users := users[email := user];
        return Response(401, message);
      }
      user := user.(loginAttempts := 0, lockUntil := None);
      users := users[email := user];
      r := LoggedIn;
    }
  }
}
