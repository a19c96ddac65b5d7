/**
  The input checks of `/registro` and `/login`: the e-mail pattern, the
  registration check chain in which the first failing check names the
  error, the initial balance, and the login normalisation, password bounds
  and redirect choice. The form fields are strings or absent. The
  birth-date parse and age computation, the account lookups and the
  password hash comparison are decided outside and arrive as inputs.
 */
module Auth {
  import opened Outcomes
  import opened JsText

  /** A character that the class `[^\s@]` admits. */
  predicate PlainChar(c: char) {
    !IsSpace(c) && c != '@'
  }

  /** `/^[^\s@]+@[^\s@]+\.[^\s@]+$/` matches s with its `@` at i and its `\.` at j. */
  predicate MatchesAt(s: string, i: int, j: int) {
    && 0 < i && i + 1 < j && j + 1 < |s|
    && s[i] == '@' && s[j] == '.'
    && (forall k :: 0 <= k < i ==> PlainChar(s[k]))
    && (forall k :: i < k < j ==> PlainChar(s[k]))
    && (forall k :: j < k < |s| ==> PlainChar(s[k]))
  }

  /** The e-mail pattern matches s, for some choice of its `@` and its `\.`. */
  ghost predicate EmailPattern(s: string) {
    exists i, j :: MatchesAt(s, i, j)
  }

  /** `s.indexOf(c)`: the first position of c, or -1. */
  function IndexOf(s: string, c: char): (i: int)
    ensures -1 <= i < |s|
    ensures i >= 0 ==> s[i] == c && forall k :: 0 <= k < i ==> s[k] != c
    ensures i == -1 ==> c !in s
  {
    if |s| == 0 then -1
    else if s[0] == c then 0
    else
      var j := IndexOf(s[1..], c);
      if j == -1 then -1 else j + 1
  }

  /** The e-mail check as a reader states it: no white space, a single `@` with
      something before it, and after it a `.` that is neither its first nor
      its last character. */
  predicate IsEmail(s: string) {
    && (forall k :: 0 <= k < |s| ==> !IsSpace(s[k]))
    && var i := IndexOf(s, '@');
       && i > 0 && '@' !in s[i + 1..]
       && var d := s[i + 1..];
          |d| >= 3 && '.' in d[1..|d| - 1]
  }

  /** The pattern and the stated check accept the same strings. */
  lemma EmailCheckIsPattern(s: string)
    ensures IsEmail(s) <==> EmailPattern(s)
  {
    if IsEmail(s) {
      EmailMatches(s);
    }
    if EmailPattern(s) {
      var i, j :| MatchesAt(s, i, j);
      MatchIsEmail(s, i, j);
    }
  }

  lemma EmailMatches(s: string)
    requires IsEmail(s)
    ensures EmailPattern(s)
  {
    var i := IndexOf(s, '@');
    var d := s[i + 1..];
    var m :| 0 <= m < |d| - 2 && d[1..|d| - 1][m] == '.';
    var j := i + 2 + m;
    assert s[j] == '.';
    forall k | i < k < |s| ensures s[k] != '@' {
      assert s[k] == d[k - i - 1];
    }
    assert MatchesAt(s, i, j);
  }

  lemma MatchIsEmail(s: string, i: int, j: int)
    requires MatchesAt(s, i, j)
    ensures IsEmail(s)
  {
    assert IndexOf(s, '@') == i;
    var d := s[i + 1..];
    assert d[1..|d| - 1][j - i - 2] == '.';
    forall k | 0 <= k < |d| ensures d[k] != '@' {
      assert d[k] == s[k + i + 1];
    }
    forall k | 0 <= k < |s| ensures !IsSpace(s[k]) {
      if k != i && k != j {
        assert PlainChar(s[k]);
      }
    }
  }

  /** A form field: absent, or the submitted string. */
  type Field = Option<string>

  /** `!field` is false: the field is present and not empty. */
  predicate Given(f: Field) {
    f.Some? && |f.value| > 0
  }

  /** The six fields of the registration form. */
  datatype RegisterForm = RegisterForm(
    fullname: Field,
    username: Field,
    email: Field,
    password: Field,
    passwordConfirm: Field,
    fechaNacimiento: Field)

  /** The outcome of the birth-date checks: not a date, under 18, or of age. */
  datatype BirthCheck = NotADate | Minor | OfAge

  /** What the lookups and the date computation decided. */
  datatype RegisterEnv = RegisterEnv(birth: BirthCheck, emailTaken: bool, usernameTaken: bool)

  /** The message `/registro` renders, one per check. */
  datatype RegisterError =
    | MissingField | PasswordMismatch | InvalidEmail | ShortPassword | ShortUsername
    | ShortFullname | InvalidBirthdate | Underage | EmailTaken | UsernameTaken

  /** The user document created: the fields as submitted and the opening balance. */
  datatype NewUser = NewUser(fullname: string, username: string, email: string, fechaNacimiento: string, saldo: int)

  predicate AllGiven(f: RegisterForm) {
    Given(f.fullname) && Given(f.username) && Given(f.email)
    && Given(f.password) && Given(f.passwordConfirm) && Given(f.fechaNacimiento)
  }

  /** The opening balance of an account created by `/registro`. */
  const OpeningBalance := 5000

  /** `/registro`: the checks in order, then the account. */
  function Register(f: RegisterForm, env: RegisterEnv): (r: Result<NewUser, RegisterError>)
    ensures r.Ok? ==> AllGiven(f) && r.value.saldo == OpeningBalance
    ensures r.Ok? ==> && r.value.fullname == f.fullname.value && r.value.username == f.username.value
                      && r.value.email == f.email.value && r.value.fechaNacimiento == f.fechaNacimiento.value
    ensures r.Ok? ==> IsEmail(f.email.value) && f.password == f.passwordConfirm
                      && Utf16Length(f.password.value) >= 6
                      && Utf16Length(Trim(f.username.value)) >= 3 && Utf16Length(Trim(f.fullname.value)) >= 3
  {
    if !AllGiven(f) then Err(MissingField)
    else if f.password.value != f.passwordConfirm.value then Err(PasswordMismatch)
    else if !IsEmail(f.email.value) then Err(InvalidEmail)
    else if Utf16Length(f.password.value) < 6 then Err(ShortPassword)
    else if Utf16Length(Trim(f.username.value)) < 3 then Err(ShortUsername)
    else if Utf16Length(Trim(f.fullname.value)) < 3 then Err(ShortFullname)
    else if env.birth == NotADate then Err(InvalidBirthdate)
    else if env.birth == Minor then Err(Underage)
    else if env.emailTaken then Err(EmailTaken)
    else if env.usernameTaken then Err(UsernameTaken)
    else Ok(NewUser(f.fullname.value, f.username.value, f.email.value, f.fechaNacimiento.value, OpeningBalance))
  }

  /** The position of each check in the chain. */
  function Rank(e: RegisterError): nat {
    match e
    case MissingField => 0
    case PasswordMismatch => 1
    case InvalidEmail => 2
    case ShortPassword => 3
    case ShortUsername => 4
    case ShortFullname => 5
    case InvalidBirthdate => 6
    case Underage => 7
    case EmailTaken => 8
    case UsernameTaken => 9
  }

  /** Each check on its own: the condition under which it rejects the form. */
  ghost predicate Fails(e: RegisterError, f: RegisterForm, env: RegisterEnv) {
    match e
    case MissingField => !AllGiven(f)
    case PasswordMismatch => f.password != f.passwordConfirm
    case InvalidEmail => f.email.Some? && !EmailPattern(f.email.value)
    case ShortPassword => f.password.Some? && Utf16Length(f.password.value) < 6
    case ShortUsername => f.username.Some? && Utf16Length(Trim(f.username.value)) < 3
    case ShortFullname => f.fullname.Some? && Utf16Length(Trim(f.fullname.value)) < 3
    case InvalidBirthdate => env.birth == NotADate
    case Underage => env.birth == Minor
    case EmailTaken => env.emailTaken
    case UsernameTaken => env.usernameTaken
  }

  /** Past the first check, each check's condition is the one the chain evaluates. */
  lemma ChecksAsChained(f: RegisterForm, env: RegisterEnv)
    requires AllGiven(f)
    ensures Fails(PasswordMismatch, f, env) <==> f.password.value != f.passwordConfirm.value
    ensures Fails(InvalidEmail, f, env) <==> !IsEmail(f.email.value)
    ensures Fails(ShortPassword, f, env) <==> Utf16Length(f.password.value) < 6
    ensures Fails(ShortUsername, f, env) <==> Utf16Length(Trim(f.username.value)) < 3
    ensures Fails(ShortFullname, f, env) <==> Utf16Length(Trim(f.fullname.value)) < 3
  {
    EmailAsChained(f, env);
    LengthsAsChained(f, env);
  }

  lemma EmailAsChained(f: RegisterForm, env: RegisterEnv)
    requires AllGiven(f)
    ensures Fails(InvalidEmail, f, env) <==> !IsEmail(f.email.value)
  {
    EmailCheckIsPattern(f.email.value);
  }

  lemma LengthsAsChained(f: RegisterForm, env: RegisterEnv)
    requires AllGiven(f)
    ensures Fails(PasswordMismatch, f, env) <==> f.password.value != f.passwordConfirm.value
    ensures Fails(ShortPassword, f, env) <==> Utf16Length(f.password.value) < 6
    ensures Fails(ShortUsername, f, env) <==> Utf16Length(Trim(f.username.value)) < 3
    ensures Fails(ShortFullname, f, env) <==> Utf16Length(Trim(f.fullname.value)) < 3
  {
    assert Fails(PasswordMismatch, f, env) <==> f.password.value != f.passwordConfirm.value;
    assert Fails(ShortPassword, f, env) <==> Utf16Length(f.password.value) < 6;
    assert Fails(ShortUsername, f, env) <==> Utf16Length(Trim(f.username.value)) < 3;
  }

  /** `/registro` reports a check exactly when that check fails and every
      earlier one passes, and creates the account exactly when none fails. */
  lemma FirstFailureWins(f: RegisterForm, env: RegisterEnv, e: RegisterError)
    ensures Register(f, env) == Err(e) <==>
            Fails(e, f, env) && forall e': RegisterError :: Rank(e') < Rank(e) ==> !Fails(e', f, env)
    ensures Register(f, env).Ok? <==> forall e': RegisterError :: !Fails(e', f, env)
  {
    var r := Register(f, env);
    if r.Ok? {
      AcceptedPassesAll(f, env);
    } else {
      ReportedIsFirst(f, env);
      if Fails(e, f, env) && forall e': RegisterError :: Rank(e') < Rank(e) ==> !Fails(e', f, env) {
        if Rank(r.error) != Rank(e) {
          assert false;
        }
        RankInjective(r.error, e);
      }
    }
  }

  lemma AcceptedPassesAll(f: RegisterForm, env: RegisterEnv)
    requires Register(f, env).Ok?
    ensures forall e': RegisterError :: !Fails(e', f, env)
  {
    forall e': RegisterError ensures !Fails(e', f, env) {
      AcceptedPasses(f, env, e');
    }
  }

  lemma AcceptedPasses(f: RegisterForm, env: RegisterEnv, e: RegisterError)
    requires Register(f, env).Ok?
    ensures !Fails(e, f, env)
  {
    ChecksAsChained(f, env);
    match e
    case MissingField =>
    case PasswordMismatch =>
    case InvalidEmail =>
    case ShortPassword =>
    case ShortUsername =>
    case ShortFullname =>
    case InvalidBirthdate =>
    case Underage =>
    case EmailTaken =>
    case UsernameTaken =>
  }

  lemma ReportedIsFirst(f: RegisterForm, env: RegisterEnv)
    requires Register(f, env).Err?
    ensures Fails(Register(f, env).error, f, env)
    ensures forall e': RegisterError :: Rank(e') < Rank(Register(f, env).error) ==> !Fails(e', f, env)
  {
    if AllGiven(f) {
      ChecksAsChained(f, env);
    }
    forall e': RegisterError | Rank(e') < Rank(Register(f, env).error) ensures !Fails(e', f, env) {
      PassedBefore(f, env, e');
    }
  }

  /** A check ranked before the reported one passed. */
  lemma PassedBefore(f: RegisterForm, env: RegisterEnv, e: RegisterError)
    requires Register(f, env).Err? && Rank(e) < Rank(Register(f, env).error)
    ensures !Fails(e, f, env)
  {
    ReachedRank(f, env);
    if AllGiven(f) {
      ChecksAsChained(f, env);
    }
    match e
    case MissingField =>
    case PasswordMismatch =>
    case InvalidEmail =>
    case ShortPassword =>
    case ShortUsername =>
    case ShortFullname =>
    case InvalidBirthdate =>
    case Underage =>
    case EmailTaken =>
    case UsernameTaken =>
  }

  /** The checks the chain passed on its way to the reported one. */
  lemma ReachedRank(f: RegisterForm, env: RegisterEnv)
    requires Register(f, env).Err?
    ensures var k := Rank(Register(f, env).error);
            && (k > 0 ==> AllGiven(f))
            && (k > 1 ==> f.password.value == f.passwordConfirm.value)
            && (k > 2 ==> IsEmail(f.email.value))
            && (k > 3 ==> Utf16Length(f.password.value) >= 6)
            && (k > 4 ==> Utf16Length(Trim(f.username.value)) >= 3)
            && (k > 5 ==> Utf16Length(Trim(f.fullname.value)) >= 3)
            && (k > 6 ==> env.birth != NotADate)
            && (k > 7 ==> env.birth != Minor)
            && (k > 8 ==> !env.emailTaken)
  {
  }

  lemma RankInjective(e: RegisterError, e': RegisterError)
    requires Rank(e) == Rank(e')
    ensures e == e'
  {
  }

  /** `/registro` of the single-file server: only the fields, the confirmation
      and the two lookups are checked, and the account opens with 0. */
  function LegacyRegister(f: RegisterForm, env: RegisterEnv): (r: Result<NewUser, RegisterError>)
    ensures r.Ok? ==> AllGiven(f) && f.password == f.passwordConfirm && r.value.saldo == 0
    ensures r.Err? ==> r.error in {MissingField, PasswordMismatch, EmailTaken, UsernameTaken}
    ensures !AllGiven(f) ==> r == Err(MissingField)
    ensures AllGiven(f) && f.password.value != f.passwordConfirm.value ==> r == Err(PasswordMismatch)
    ensures AllGiven(f) && f.password.value == f.passwordConfirm.value && env.emailTaken ==> r == Err(EmailTaken)
    ensures AllGiven(f) && f.password.value == f.passwordConfirm.value && !env.emailTaken && env.usernameTaken ==>
              r == Err(UsernameTaken)
    ensures AllGiven(f) && f.password.value == f.passwordConfirm.value && !env.emailTaken && !env.usernameTaken ==>
              r == Ok(NewUser(f.fullname.value, f.username.value, f.email.value, f.fechaNacimiento.value, 0))
  {
    if !AllGiven(f) then Err(MissingField)
    else if f.password.value != f.passwordConfirm.value then Err(PasswordMismatch)
    else if env.emailTaken then Err(EmailTaken)
    else if env.usernameTaken then Err(UsernameTaken)
    else Ok(NewUser(f.fullname.value, f.username.value, f.email.value, f.fechaNacimiento.value, 0))
  }

  /** Every form the current handler accepts the older one accepts too, with
      the same account but an empty balance. */
  lemma LegacyAcceptsMore(f: RegisterForm, env: RegisterEnv)
    ensures Register(f, env).Ok? ==>
              LegacyRegister(f, env) == Ok(Register(f, env).value.(saldo := 0))
  {
  }

  /** The older handler also accepts a malformed e-mail with a one-letter password. */
  lemma LegacyLooserExample()
    ensures var g := RegisterForm(Some("ana"), Some("ana"), Some("ana"), Some("x"), Some("x"), Some("2000-01-01"));
            var ok := RegisterEnv(OfAge, false, false);
            LegacyRegister(g, ok).Ok? && Register(g, ok) == Err(InvalidEmail)
  {
    var s := "ana";
    assert '@' !in s by {
      assert s[0] != '@' && s[1] != '@' && s[2] != '@';
    }
    assert !IsEmail(s);
  }

  /** `email.trim().toLowerCase()`. */
  function NormalizeEmail(e: string): (r: string)
    ensures |r| == |Trim(e)| && LeadingSpace(e) + |r| <= |e|
    ensures forall k :: 0 <= k < |r| ==> r[k] == LowerChar(e[LeadingSpace(e) + k])
    ensures forall k :: 0 <= k < |r| ==> !IsAsciiUpper(r[k])
    ensures |r| > 0 ==> !IsSpace(r[0]) && !IsSpace(r[|r| - 1])
  {
    var t := Trim(e);
    TrimShape(e);
    LowerKeepsEdges(t);
    ToLower(t)
  }

  lemma LowerKeepsEdges(t: string)
    ensures |t| > 0 ==> (IsSpace(ToLower(t)[0]) <==> IsSpace(t[0]))
    ensures |t| > 0 ==> (IsSpace(ToLower(t)[|t| - 1]) <==> IsSpace(t[|t| - 1]))
  {
    if |t| > 0 {
      LowerKeepsSpace(t[0]);
      LowerKeepsSpace(t[|t| - 1]);
    }
  }

  /** Normalising twice is normalising once. */
  lemma {:induction false} NormalizeIdempotent(e: string)
    ensures NormalizeEmail(NormalizeEmail(e)) == NormalizeEmail(e)
  {
    var r := NormalizeEmail(e);
    TrimNoEdges(r);
    ToLowerIdempotent(Trim(e));
  }

  /** The two login form fields. */
  datatype LoginForm = LoginForm(email: Field, password: Field)

  /** The message `/login` renders. */
  datatype LoginError = MissingCredentials | MalformedEmail | InvalidPassword | BadCredentials

  /** A successful login: the account, and where the browser is sent. */
  datatype Session = Session(user: nat, redirect: string)

  /** What the lookup, the hash comparison and the saved redirect cookie decided:
      the accounts by stored e-mail, whether the password matches the stored
      hash, and the `redirectAfterLogin` cookie. */
  datatype LoginEnv = LoginEnv(accounts: map<string, nat>, passwordMatches: bool, redirectCookie: Field)

  /** `req.signedCookies.redirectAfterLogin || '/perfil'`. */
  function RedirectTarget(cookie: Field): string {
    if Given(cookie) then cookie.value else "/perfil"
  }

  /** `/login`: both fields given, the normalised e-mail well formed, the
      password between 1 and 128 UTF-16 units, then the lookup and the hash. */
  function Login(f: LoginForm, env: LoginEnv): (r: Result<Session, LoginError>)
    ensures !Given(f.email) || !Given(f.password) ==> r == Err(MissingCredentials)
    ensures r.Ok? ==> && Given(f.email) && Given(f.password)
                      && EmailPattern(NormalizeEmail(f.email.value))
                      && 1 <= Utf16Length(f.password.value) <= 128
                      && NormalizeEmail(f.email.value) in env.accounts
                      && r.value.user == env.accounts[NormalizeEmail(f.email.value)]
                      && env.passwordMatches
                      && r.value.redirect == RedirectTarget(env.redirectCookie)
    ensures Given(f.email) && Given(f.password) ==>
              var email := NormalizeEmail(f.email.value);
              var n := Utf16Length(f.password.value);
              && (!EmailPattern(email) ==> r == Err(MalformedEmail))
              && (EmailPattern(email) && !(1 <= n <= 128) ==> r == Err(InvalidPassword))
              && (EmailPattern(email) && 1 <= n <= 128 && (email !in env.accounts || !env.passwordMatches) ==>
                    r == Err(BadCredentials))
              && (EmailPattern(email) && 1 <= n <= 128 && email in env.accounts && env.passwordMatches ==>
                    r == Ok(Session(env.accounts[email], RedirectTarget(env.redirectCookie))))
  {
    if !Given(f.email) || !Given(f.password) then Err(MissingCredentials)
    else
      var email := NormalizeEmail(f.email.value);
      EmailCheckIsPattern(email);
      if !IsEmail(email) then Err(MalformedEmail)
      else if Utf16Length(f.password.value) < 1 || Utf16Length(f.password.value) > 128 then Err(InvalidPassword)
      else if email !in env.accounts then Err(BadCredentials)
      else if !env.passwordMatches then Err(BadCredentials)
      else Ok(Session(env.accounts[email], RedirectTarget(env.redirectCookie)))
  }

  /** Login does not depend on case or surrounding white space of the e-mail:
      a submitted address and its normalised form log in the same way. */
  lemma LoginIgnoresCaseAndSpace(email: string, password: Field, env: LoginEnv)
    requires |NormalizeEmail(email)| > 0
    ensures Login(LoginForm(Some(email), password), env) == Login(LoginForm(Some(NormalizeEmail(email)), password), env)
  {
    NormalizeIdempotent(email);
    var e := NormalizeEmail(email);
    if Given(password) {
      var n := Utf16Length(password.value);
      if !EmailPattern(e) {
      } else if !(1 <= n <= 128) {
      } else if e !in env.accounts || !env.passwordMatches {
      } else {
      }
    }
  }

  /** A password longer than 128 UTF-16 units is refused before any lookup. */
  lemma LongPasswordRefused(email: string, password: string, env: LoginEnv)
    requires Utf16Length(password) > 128
    requires IsEmail(NormalizeEmail(email))
    ensures Login(LoginForm(Some(email), Some(password)), env) == Err(InvalidPassword)
  {
  }

  /** `/login` of the single-file server: no normalisation, no format or length
      checks, and always `/perfil` afterwards. */
  function LegacyLogin(f: LoginForm, env: LoginEnv): (r: Result<Session, LoginError>)
    ensures !Given(f.email) || !Given(f.password) ==> r == Err(MissingCredentials)
    ensures r.Ok? ==> f.email.value in env.accounts && env.passwordMatches && r.value.redirect == "/perfil"
    ensures Given(f.email) && Given(f.password) ==>
              && (f.email.value in env.accounts && env.passwordMatches ==>
                    r == Ok(Session(env.accounts[f.email.value], "/perfil")))
              && (f.email.value !in env.accounts || !env.passwordMatches ==> r == Err(BadCredentials))
  {
    if !Given(f.email) || !Given(f.password) then Err(MissingCredentials)
    else if f.email.value !in env.accounts then Err(BadCredentials)
    else if !env.passwordMatches then Err(BadCredentials)
    else Ok(Session(env.accounts[f.email.value], "/perfil"))
  }

  /** For an address already in normal form, every login the current handler
      grants the older one grants too, to the same account, but it always
      sends the browser to `/perfil`. */
  lemma LegacyLoginAgrees(f: LoginForm, env: LoginEnv)
    requires Login(f, env).Ok?
    requires NormalizeEmail(f.email.value) == f.email.value
    ensures LegacyLogin(f, env) == Ok(Session(Login(f, env).value.user, "/perfil"))
  {
  }
}
