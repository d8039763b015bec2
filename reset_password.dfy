/** The password reset form: the new-password schema, the per-field error messages built
    from its issues, the field edits that hide a field's message, and the submit handler,
    which writes the password to the auth service only after validation succeeds. */
module ResetPassword {
  import opened Wrappers
  import opened Validations

  const Mismatch := "Las contraseñas no coinciden"

  /** `newPasswordSchema.safeParse({password, confirmPassword})`: the password's length
      checks, then the refinement, which runs even when a length check failed and is
      reported under `confirmPassword`. */
  function NewPasswordIssues(password: string, confirm: string): (issues: seq<Issue>)
    ensures |issues| <= 2
    ensures forall iss :: iss in issues ==> iss.path == [Password] || iss.path == [ConfirmPassword]
  {
    Bounds(Password, password, 8, PasswordTooShort, 72, PasswordTooLong)
    + (if password != confirm then [Issue([ConfirmPassword], Mismatch)] else [])
  }

  /** A new password is accepted exactly when it has 8 to 72 characters and the
      confirmation repeats it. */
  lemma NewPasswordValidIff(password: string, confirm: string)
    ensures NewPasswordIssues(password, confirm) == [] <==> 8 <= |password| <= 72 && password == confirm
  {
  }

  /** A mismatch is reported once, under `confirmPassword`, with its own message, and no
      other issue is about that field. */
  lemma MismatchUnderConfirm(password: string, confirm: string)
    ensures var issues := NewPasswordIssues(password, confirm);
      && (password != confirm <==> Issue([ConfirmPassword], Mismatch) in issues)
      && forall iss :: iss in issues && iss.path == [ConfirmPassword] ==> iss.message == Mismatch
  {
  }

  /** `err.path[0]`, when there is one; every field's key is a non-empty string, so this is
      exactly when the issue is kept. */
  function Head(iss: Issue): Option<Field>
  {
    if iss.path == [] then None else Some(iss.path[0])
  }

  /** Some issue about field `k` carries message `msg`. */
  ghost predicate Reported(issues: seq<Issue>, k: Field, msg: string)
  {
    exists i :: 0 <= i < |issues| && Head(issues[i]) == Some(k) && issues[i].message == msg
  }

  /** The `newErrors` record after the `forEach` over `issues`, keyed by field: each issue
      with a first path element sets that field to its message, a later one overwriting an
      earlier. */
  function ErrorsOf(issues: seq<Issue>): (errs: map<Field, string>)
    ensures forall k :: k in errs ==> Reported(issues, k, errs[k])
  {
    if issues == [] then map[]
    else
      var m := ErrorsOf(issues[..|issues| - 1]);
      var last := issues[|issues| - 1];
      if Head(last).Some? then m[Head(last).value := last.message] else m
  }

  /** The keys are exactly the non-empty first path elements of the issues. */
  lemma {:induction false} ErrorKeys(issues: seq<Issue>, k: Field)
    ensures k in ErrorsOf(issues) <==> exists i :: 0 <= i < |issues| && Head(issues[i]) == Some(k)
  {
    if issues != [] {
      var s := issues[..|issues| - 1];
      ErrorKeys(s, k);
      if k in ErrorsOf(s) {
        var i :| 0 <= i < |s| && Head(s[i]) == Some(k);
        assert issues[i] == s[i];
      }
      if exists i :: 0 <= i < |issues| && Head(issues[i]) == Some(k) {
        var i :| 0 <= i < |issues| && Head(issues[i]) == Some(k);
        if i < |s| {
          assert s[i] == issues[i];
        }
      }
    }
  }

  /** The last issue sets its field's entry; every other field keeps the entry it had. */
  lemma ErrorsSnoc(issues: seq<Issue>, k: Field)
    requires issues != []
    ensures var s, last := issues[..|issues| - 1], issues[|issues| - 1];
      && (Head(last) == Some(k) ==> k in ErrorsOf(issues) && ErrorsOf(issues)[k] == last.message)
      && (Head(last) != Some(k) ==> (k in ErrorsOf(issues) <==> k in ErrorsOf(s)))
      && (Head(last) != Some(k) && k in ErrorsOf(s) ==> ErrorsOf(issues)[k] == ErrorsOf(s)[k])
  {
  }

  /** Each key holds the message of the last issue about it. */
  lemma {:induction false} ErrorLastWins(issues: seq<Issue>, k: Field)
    requires k in ErrorsOf(issues)
    ensures exists i :: && 0 <= i < |issues| && Head(issues[i]) == Some(k)
                        && ErrorsOf(issues)[k] == issues[i].message
                        && forall j :: i < j < |issues| ==> Head(issues[j]) != Some(k)
  {
    assert issues != [];
    var n := |issues| - 1;
    var s := issues[..n];
    ErrorsSnoc(issues, k);
    if Head(issues[n]) != Some(k) {
      ErrorLastWins(s, k);
      var i :| && 0 <= i < |s| && Head(s[i]) == Some(k) && ErrorsOf(s)[k] == s[i].message
               && forall j :: i < j < |s| ==> Head(s[j]) != Some(k);
      assert issues[i] == s[i];
      forall j | i < j < |issues| ensures Head(issues[j]) != Some(k) {
        if j < n {
          assert issues[j] == s[j];
        }
      }
    }
  }

  /** The `forEach` of `handleResetPassword`, filling `newErrors` in place. */
  method CollectErrors(issues: seq<Issue>) returns (errs: map<Field, string>)
    ensures errs == ErrorsOf(issues)
  {
    errs := map[];
    var i := 0;
    while i < |issues|
      invariant 0 <= i <= |issues|
      invariant errs == ErrorsOf(issues[..i])
    {
      assert issues[..i + 1][..i] == issues[..i];
      var err := issues[i];
      if Head(err).Some? {
        errs := errs[Head(err).value := err.message];
      }
      i := i + 1;
    }
    assert issues[..i] == issues;
  }

  /** A long enough password with a wrong confirmation shows only the mismatch message. */
  lemma MismatchErrors(password: string, confirm: string)
    requires 8 <= |password| <= 72 && password != confirm
    ensures ErrorsOf(NewPasswordIssues(password, confirm)) == map[ConfirmPassword := Mismatch]
  {
    var issues := NewPasswordIssues(password, confirm);
    assert issues == [Issue([ConfirmPassword], Mismatch)];
    assert issues[..0] == [];
  }

  /** A short password with a wrong confirmation shows a message under each field. */
  lemma ShortAndMismatchErrors(password: string, confirm: string)
    requires |password| < 8 && password != confirm
    ensures ErrorsOf(NewPasswordIssues(password, confirm))
            == map[Password := PasswordTooShort, ConfirmPassword := Mismatch]
  {
    var issues := NewPasswordIssues(password, confirm);
    assert issues == [Issue([Password], PasswordTooShort), Issue([ConfirmPassword], Mismatch)];
    assert issues[..1] == [Issue([Password], PasswordTooShort)];
    assert issues[..1][..0] == [];
    assert ErrorsOf(issues[..1]) == map[Password := PasswordTooShort];
  }

  /** The form state and what the auth service holds. */
  datatype ResetView = ResetView(
    password: string,
    confirmPassword: string,
    errors: map<Field, string>,
    loading: bool,
    authPassword: string,
    updateCalls: nat,
    signedOut: bool)

  /** A field's message is rendered when its key holds a non-empty string. */
  predicate ShowsError(v: ResetView, k: Field)
  {
    k in v.errors && v.errors[k] != ""
  }

  /** `handleResetPassword`: errors are cleared; an invalid form only sets the new errors;
      a valid one calls `updateUser`, which on success stores the password and is followed
      by `signOut`, and `loading` is false again once the call is over. */
  function AfterSubmit(v: ResetView, updateOk: bool): (w: ResetView)
    ensures w.password == v.password && w.confirmPassword == v.confirmPassword
    ensures w.updateCalls == if 8 <= |v.password| <= 72 && v.password == v.confirmPassword
                             then v.updateCalls + 1 else v.updateCalls
    ensures w.authPassword != v.authPassword ==> w.authPassword == v.password && 8 <= |v.password| <= 72
  {
    NewPasswordValidIff(v.password, v.confirmPassword);
    var issues := NewPasswordIssues(v.password, v.confirmPassword);
    if issues != [] then v.(errors := ErrorsOf(issues))
    else v.(errors := map[],
            loading := false,
            updateCalls := v.updateCalls + 1,
            authPassword := if updateOk then v.password else v.authPassword,
            signedOut := v.signedOut || updateOk)
  }

  /** The `onChange` of the password input. */
  function AfterEditPassword(v: ResetView, s: string): ResetView
  {
    v.(password := s, errors := v.errors[Password := ""])
  }

  /** The `onChange` of the confirmation input. */
  function AfterEditConfirm(v: ResetView, s: string): ResetView
  {
    v.(confirmPassword := s, errors := v.errors[ConfirmPassword := ""])
  }

  /** An invalid form never reaches the auth service: the stored password, the number of
      `updateUser` calls, `loading` and the session are as before, and the errors are those
      of the issues alone, none left from before. */
  lemma InvalidSubmitWritesNothing(v: ResetView, updateOk: bool)
    requires !(8 <= |v.password| <= 72 && v.password == v.confirmPassword)
    ensures var w := AfterSubmit(v, updateOk);
      && w.authPassword == v.authPassword && w.updateCalls == v.updateCalls
      && w.loading == v.loading && w.signedOut == v.signedOut
      && w.errors == ErrorsOf(NewPasswordIssues(v.password, v.confirmPassword))
      && w.errors != map[]
  {
    var issues := NewPasswordIssues(v.password, v.confirmPassword);
    NewPasswordValidIff(v.password, v.confirmPassword);
    ErrorKeys(issues, issues[0].path[0]);
  }

  /** A valid form calls `updateUser` once and shows no error; the password is stored and
      the session ended exactly when the call succeeds. */
  lemma ValidSubmitUpdates(v: ResetView, updateOk: bool)
    requires 8 <= |v.password| <= 72 && v.password == v.confirmPassword
    ensures var w := AfterSubmit(v, updateOk);
      && w.updateCalls == v.updateCalls + 1 && w.errors == map[] && !w.loading
      && (updateOk ==> w.authPassword == v.password && w.signedOut)
      && (!updateOk ==> w.authPassword == v.authPassword && w.signedOut == v.signedOut)
  {
    NewPasswordValidIff(v.password, v.confirmPassword);
  }

  /** Editing a field hides that field's message and leaves every other field's as it was. */
  lemma EditHidesOnlyThatField(v: ResetView, s: string)
    ensures !ShowsError(AfterEditPassword(v, s), Password)
    ensures !ShowsError(AfterEditConfirm(v, s), ConfirmPassword)
    ensures forall k :: k != Password ==> (ShowsError(AfterEditPassword(v, s), k) <==> ShowsError(v, k))
    ensures forall k :: k != ConfirmPassword ==> (ShowsError(AfterEditConfirm(v, s), k) <==> ShowsError(v, k))
  {
  }

  /** The page component; `authPassword`, `updateCalls` and `signedOut` stand for the auth
      service it calls. */
  class ResetPasswordPage {
    var password: string
    var confirmPassword: string
    var errors: map<Field, string>
    var loading: bool
    var authPassword: string
    var updateCalls: nat
    var signedOut: bool

    function Snapshot(): ResetView
      reads this
    {
      ResetView(password, confirmPassword, errors, loading, authPassword, updateCalls, signedOut)
    }

    constructor (authPassword: string)
      ensures Snapshot() == ResetView("", "", map[], false, authPassword, 0, false)
    {
      password, confirmPassword, errors, loading := "", "", map[], false;
      this.authPassword, updateCalls, signedOut := authPassword, 0, false;
    }

    method EditPassword(s: string)
      modifies this
      ensures Snapshot() == AfterEditPassword(old(Snapshot()), s)
    {
      password := s;
      errors := errors[Password := ""];
    }

    method EditConfirm(s: string)
      modifies this
      ensures Snapshot() == AfterEditConfirm(old(Snapshot()), s)
    {
      confirmPassword := s;
      errors := errors[ConfirmPassword := ""];
    }

    /** `updateOk` is whether `updateUser` answered without an error. */
    method Submit(updateOk: bool)
      modifies this
      ensures Snapshot() == AfterSubmit(old(Snapshot()), updateOk)
    {
      errors := map[];
      var issues := NewPasswordIssues(password, confirmPassword);
      if issues != [] {
        var newErrors := CollectErrors(issues);
        errors := newErrors;
        return;
      }
      loading := true;
      updateCalls := updateCalls + 1;
      if updateOk {
        authPassword := password;
        signedOut := true;
      }
      loading := false;
    }
  }
}
