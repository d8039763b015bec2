/** The form schemas: each field is a chain of checks (trim, minimum and maximum length,
    a character class), every check of every field runs, and the parse fails with the
    list of issues found, in field order and check order. */
module Validations {
  import opened Text

  /** The form fields the schemas name. */
  datatype Field = Email | Password | Username | City | ConfirmPassword

  /** The key a field has in the form object. */
  function Name(f: Field): (k: string)
    ensures k != ""
  {
    match f
    case Email => "email"
    case Password => "password"
    case Username => "username"
    case City => "city"
    case ConfirmPassword => "confirmPassword"
  }

  /** One validation issue: the path of the field it is about, and its message. */
  datatype Issue = Issue(path: seq<Field>, message: string)

  /** The outcome of `safeParse`: the (trimmed) data, or the issues. */
  datatype Parsed<T> = Success(data: T) | Failure(issues: seq<Issue>)

  /** The default message of a `max(n)` check given without one. */
  function TooLong(n: nat): string
  {
    "String must contain at most " + Decimal(n) + " character(s)"
  }

  /** `min(lo, loMsg).max(hi, hiMsg)` on field `field`: one issue per failed bound. */
  function Bounds(field: Field, s: string, lo: nat, loMsg: string, hi: nat, hiMsg: string): (r: seq<Issue>)
    ensures r == [] <==> lo <= |s| <= hi
    ensures forall iss :: iss in r ==> iss.path == [field]
  {
    (if |s| < lo then [Issue([field], loMsg)] else [])
    + (if |s| > hi then [Issue([field], hiMsg)] else [])
  }

  /** Every issue is about exactly one field, one of `fields`. */
  ghost predicate OnlyAbout(r: seq<Issue>, fields: set<Field>)
  {
    forall iss :: iss in r ==> |iss.path| == 1 && iss.path[0] in fields
  }

  lemma OneField(r: seq<Issue>, field: Field, fields: set<Field>)
    requires field in fields && forall iss :: iss in r ==> iss.path == [field]
    ensures OnlyAbout(r, fields)
  {
  }

  lemma OnlyAboutJoin(a: seq<Issue>, b: seq<Issue>, fields: set<Field>)
    requires OnlyAbout(a, fields) && OnlyAbout(b, fields)
    ensures OnlyAbout(a + b, fields)
  {
  }

  /** No issue is about field `field`. */
  predicate Clean(issues: seq<Issue>, field: Field)
  {
    forall iss :: iss in issues ==> iss.path != [field]
  }

  /** The character class `[a-zA-Z0-9_-]`. */
  predicate UsernameChar(c: char)
  {
    ('a' <= c <= 'z') || ('A' <= c <= 'Z') || ('0' <= c <= '9') || c == '_' || c == '-'
  }

  /** `/^[a-zA-Z0-9_-]+$/`: at least one character, all of the class. */
  predicate UsernamePattern(s: string)
  {
    |s| > 0 && forall i :: 0 <= i < |s| ==> UsernameChar(s[i])
  }

  const InvalidEmail := "Email inválido"
  const PasswordTooShort := "La contraseña debe tener al menos 8 caracteres"
  const PasswordTooLong := "La contraseña es demasiado larga"
  const UsernameTooShort := "El nombre de usuario debe tener al menos 3 caracteres"
  const UsernameTooLong := "El nombre de usuario es demasiado largo"
  const UsernameBadChars := "Solo letras, números, guiones y guiones bajos"
  const CityRequired := "La ciudad es requerida"
  const PasswordRequired := "La contraseña es requerida"

  /** `email("Email inválido")`, whose format rule is the library's (`isEmail`). */
  function EmailIssues(email: string, isEmail: string -> bool): (r: seq<Issue>)
    ensures r == [] <==> isEmail(email)
    ensures forall iss :: iss in r ==> iss.path == [Email]
  {
    if isEmail(email) then [] else [Issue([Email], InvalidEmail)]
  }

  /** The signup email: the format, then `max(255)`. */
  function SignupEmailIssues(email: string, isEmail: string -> bool): (r: seq<Issue>)
    ensures r == [] <==> isEmail(email) && |email| <= 255
    ensures forall iss :: iss in r ==> iss.path == [Email]
  {
    EmailIssues(email, isEmail) + (if |email| > 255 then [Issue([Email], TooLong(255))] else [])
  }

  function SignupPasswordIssues(password: string): (r: seq<Issue>)
    ensures r == [] <==> 8 <= |password| <= 72
    ensures forall iss :: iss in r ==> iss.path == [Password]
  {
    Bounds(Password, password, 8, PasswordTooShort, 72, PasswordTooLong)
  }

  /** The username after `trim()`: the length bounds, then the pattern. */
  function SignupUsernameIssues(username: string): (r: seq<Issue>)
    ensures r == [] <==> 3 <= |Trim(username)| <= 30 && UsernamePattern(Trim(username))
    ensures forall iss :: iss in r ==> iss.path == [Username]
  {
    var u := Trim(username);
    Bounds(Username, u, 3, UsernameTooShort, 30, UsernameTooLong)
    + (if UsernamePattern(u) then [] else [Issue([Username], UsernameBadChars)])
  }

  /** The city after `trim()`, shared by signup and profile. */
  function CityIssues(city: string): (r: seq<Issue>)
    ensures r == [] <==> 2 <= |Trim(city)| <= 100
    ensures forall iss :: iss in r ==> iss.path == [City]
  {
    Bounds(City, Trim(city), 2, CityRequired, 100, TooLong(100))
  }

  datatype Signup = Signup(email: string, password: string, username: string, city: string)

  /** `signupSchema.safeParse`. */
  function SignupIssues(f: Signup, isEmail: string -> bool): (r: seq<Issue>)
    ensures OnlyAbout(r, {Email, Password, Username, City})
  {
    var e, p, u, c := SignupEmailIssues(f.email, isEmail), SignupPasswordIssues(f.password),
                      SignupUsernameIssues(f.username), CityIssues(f.city);
    var fs := {Email, Password, Username, City};
    OneField(e, Email, fs); OneField(p, Password, fs); OneField(u, Username, fs); OneField(c, City, fs);
    OnlyAboutJoin(e, p, fs); OnlyAboutJoin(e + p, u, fs); OnlyAboutJoin(e + p + u, c, fs);
    SignupEmailIssues(f.email, isEmail)
    + SignupPasswordIssues(f.password)
    + SignupUsernameIssues(f.username)
    + CityIssues(f.city)
  }

  function ParseSignup(f: Signup, isEmail: string -> bool): (r: Parsed<Signup>)
    ensures r.Success? ==> r.data == f.(username := Trim(f.username), city := Trim(f.city))
    ensures r.Failure? ==> r.issues != []
  {
    var issues := SignupIssues(f, isEmail);
    if issues == [] then Success(f.(username := Trim(f.username), city := Trim(f.city)))
    else Failure(issues)
  }

  lemma CleanSplit(a: seq<Issue>, b: seq<Issue>, field: Field)
    ensures Clean(a + b, field) <==> Clean(a, field) && Clean(b, field)
  {
  }

  /** Issues all about `field` leave it clean exactly when there are none. */
  lemma OwnClean(r: seq<Issue>, field: Field)
    requires forall iss :: iss in r ==> iss.path == [field]
    ensures Clean(r, field) <==> r == []
  {
    if r != [] {
      assert r[0] in r;
    }
  }

  /** Issues all about another field leave `field` clean. */
  lemma OtherClean(r: seq<Issue>, own: Field, field: Field)
    requires own != field && forall iss :: iss in r ==> iss.path == [own]
    ensures Clean(r, field)
  {
    forall iss | iss in r ensures iss.path != [field] {
      assert iss.path[0] == own;
    }
  }

  /** A signup field is clean exactly when its own checks raise no issue. */
  lemma SignupFieldClean(f: Signup, isEmail: string -> bool, field: Field, own: seq<Issue>)
    requires field in {Password, Username, City}
    requires own == match field
                    case Password => SignupPasswordIssues(f.password)
                    case Username => SignupUsernameIssues(f.username)
                    case _ => CityIssues(f.city)
    ensures Clean(SignupIssues(f, isEmail), field) <==> own == []
  {
    var e, p, u, c := SignupEmailIssues(f.email, isEmail), SignupPasswordIssues(f.password),
                      SignupUsernameIssues(f.username), CityIssues(f.city);
    assert SignupIssues(f, isEmail) == e + p + u + c;
    CleanSplit(e + p + u, c, field);
    CleanSplit(e + p, u, field);
    CleanSplit(e, p, field);
    OtherClean(e, Email, field);
    if field == Password {
      OwnClean(p, field); OtherClean(u, Username, field); OtherClean(c, City, field);
    } else if field == Username {
      OwnClean(u, field); OtherClean(p, Password, field); OtherClean(c, City, field);
    } else {
      OwnClean(c, field); OtherClean(p, Password, field); OtherClean(u, Username, field);
    }
  }

  /** A signup password is accepted exactly when it has 8 to 72 characters. */
  lemma SignupPasswordRule(f: Signup, isEmail: string -> bool)
    ensures Clean(SignupIssues(f, isEmail), Password) <==> 8 <= |f.password| <= 72
  {
    SignupFieldClean(f, isEmail, Password, SignupPasswordIssues(f.password));
  }

  /** A signup username is accepted exactly when, trimmed, it has 3 to 30 characters, all
      letters, digits, `_` or `-`. */
  lemma SignupUsernameRule(f: Signup, isEmail: string -> bool)
    ensures Clean(SignupIssues(f, isEmail), Username)
            <==> var u := Trim(f.username); 3 <= |u| <= 30 && forall i :: 0 <= i < |u| ==> UsernameChar(u[i])
  {
    SignupFieldClean(f, isEmail, Username, SignupUsernameIssues(f.username));
  }

  /** A signup city is accepted exactly when, trimmed, it has 2 to 100 characters. */
  lemma SignupCityRule(f: Signup, isEmail: string -> bool)
    ensures Clean(SignupIssues(f, isEmail), City) <==> 2 <= |Trim(f.city)| <= 100
  {
    SignupFieldClean(f, isEmail, City, CityIssues(f.city));
  }

  /** An email longer than 255 characters is rejected, whatever its format. */
  lemma SignupLongEmailRejected(f: Signup, isEmail: string -> bool)
    requires |f.email| > 255
    ensures !Clean(SignupIssues(f, isEmail), Email)
    ensures ParseSignup(f, isEmail).Failure?
  {
    assert Issue([Email], TooLong(255)) in SignupIssues(f, isEmail);
  }

  /** The whole signup form is accepted exactly when every field rule holds. */
  lemma SignupAcceptedIff(f: Signup, isEmail: string -> bool)
    ensures ParseSignup(f, isEmail).Success?
            <==> && isEmail(f.email) && |f.email| <= 255
                 && 8 <= |f.password| <= 72
                 && 3 <= |Trim(f.username)| <= 30 && UsernamePattern(Trim(f.username))
                 && 2 <= |Trim(f.city)| <= 100
  {
  }

  datatype Login = Login(email: string, password: string)

  /** `loginSchema.safeParse`. */
  function LoginIssues(f: Login, isEmail: string -> bool): (r: seq<Issue>)
    ensures r == [] <==> isEmail(f.email) && f.password != ""
    ensures forall iss :: iss in r ==> iss.path == [Email] || iss.path == [Password]
  {
    EmailIssues(f.email, isEmail)
    + (if |f.password| < 1 then [Issue([Password], PasswordRequired)] else [])
  }

  /** A login password is accepted exactly when it is not empty; there is no upper bound. */
  lemma LoginPasswordRule(f: Login, isEmail: string -> bool)
    ensures Clean(LoginIssues(f, isEmail), Password) <==> f.password != ""
  {
    if f.password == "" {
      assert Issue([Password], PasswordRequired) in LoginIssues(f, isEmail);
    }
  }

  datatype Profile = Profile(username: string, city: string)

  /** `profileSchema.safeParse`: the username bounds without the character class. */
  function ProfileIssues(f: Profile): (r: seq<Issue>)
    ensures forall iss :: iss in r ==> iss.path == [Username] || iss.path == [City]
  {
    Bounds(Username, Trim(f.username), 3, UsernameTooShort, 30, UsernameTooLong)
    + CityIssues(f.city)
  }

  function ParseProfile(f: Profile): (r: Parsed<Profile>)
    ensures r.Success? ==> r.data == Profile(Trim(f.username), Trim(f.city))
    ensures r.Failure? ==> r.issues != []
  {
    var issues := ProfileIssues(f);
    if issues == [] then Success(Profile(Trim(f.username), Trim(f.city))) else Failure(issues)
  }

  /** A profile is accepted exactly when the trimmed username has 3 to 30 characters of any
      kind and the trimmed city 2 to 100. */
  lemma ProfileAcceptedIff(f: Profile)
    ensures ParseProfile(f).Success? <==> 3 <= |Trim(f.username)| <= 30 && 2 <= |Trim(f.city)| <= 100
  {
  }

  /** Every username and city signup accepts, the profile form accepts, and with the same
      trimmed values; the converse fails for a username such as "a b c". */
  lemma SignupValuesFitProfile(f: Signup, isEmail: string -> bool)
    requires ParseSignup(f, isEmail).Success?
    ensures ParseProfile(Profile(f.username, f.city))
            == Success(Profile(ParseSignup(f, isEmail).data.username, ParseSignup(f, isEmail).data.city))
  {
    SignupAcceptedIff(f, isEmail);
  }

  /** A username with a space inside passes the profile rule but not the signup pattern. */
  lemma ProfileAllowsSpaces(u: string, i: nat)
    requires 3 <= |u| <= 30 && !IsSpace(u[0]) && !IsSpace(u[|u| - 1])
    requires i < |u| && u[i] == ' '
    ensures Trim(u) == u
    ensures !UsernamePattern(Trim(u))
    ensures Bounds(Username, Trim(u), 3, UsernameTooShort, 30, UsernameTooLong) == []
  {
    TrimKeepsInner(u);
    assert !UsernameChar(u[i]);
  }
}
