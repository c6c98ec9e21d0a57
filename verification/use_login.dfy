/**
 * The login form's state and handlers (src/hooks/useLogin.ts): field edits, the three ordered
 * client-side checks, and what a failed login leaves behind. The outcome of `login` is an input.
 */
module UseLogin {
  import opened Types
  import opened JsText

  datatype Field = Email | Password

  datatype LoginForm = LoginForm(credentials: Credentials, isLoading: bool, error: Option<string>)

  /** The hook's initial state. */
  function InitialForm(): (f: LoginForm)
    ensures f.credentials.email == "" && f.credentials.password == ""
    ensures !f.isLoading && f.error.None?
  {
    LoginForm(Credentials("", ""), false, None)
  }

  /** `if (error) setError(null)`: an empty message is falsy and stays. */
  function ClearError(error: Option<string>): (r: Option<string>)
    ensures r.None? || r == Some("")
  {
    if error.Some? && error.value != "" then None else error
  }

  /** `handleChange`: the named field takes the new value, the other is kept, any error is cleared. */
  function HandleChange(f: LoginForm, field: Field, value: string): (r: LoginForm)
    ensures field == Email ==> r.credentials == Credentials(value, f.credentials.password)
    ensures field == Password ==> r.credentials == Credentials(f.credentials.email, value)
    ensures r.isLoading == f.isLoading
    ensures r.error.None? || r.error == Some("")
    ensures f.error.None? ==> r.error.None?
  {
    var c := match field
      case Email => f.credentials.(email := value)
      case Password => f.credentials.(password := value);
    LoginForm(c, f.isLoading, ClearError(f.error))
  }

  const BlankFields: string := "Please complete all fields"
  const InvalidEmail: string := "Please enter a valid email"
  const ShortPassword: string := "Password is too short"

  /** A character `[^\s@]` accepts. */
  predicate IsPlain(c: char) {
    !IsSpace(c) && c != '@'
  }

  /** One or more `[^\s@]` characters. */
  ghost predicate PlainRun(s: string) {
    |s| > 0 && forall i :: 0 <= i < |s| ==> IsPlain(s[i])
  }

  /** What `/^[^\s@]+@[^\s@]+\.[^\s@]+$/` matches, read as a concatenation of its pieces. */
  ghost predicate MatchesEmailRegex(e: string) {
    exists local, domain, tld :: PlainRun(local) && PlainRun(domain) && PlainRun(tld)
                                && e == local + "@" + domain + "." + tld
  }

  /**
   * The same test by positions: no white space anywhere, exactly one `@`, not first, and a dot
   * after it with text on both sides.
   */
  function IsEmailShaped(e: string): (b: bool)
    ensures b <==> MatchesEmailRegex(e)
  {
    var b := exists at, dot :: 0 < at && at + 1 < dot < |e| - 1 && ShapedAt(e, at, dot);
    EmailShapeIffRegex(e);
    b
  }

  /** `e` has its only `@` at `at` (not first) and a dot at `dot`, with text between and after. */
  predicate ShapedAt(e: string, at: int, dot: int) {
    0 < at && at + 1 < dot < |e| - 1 && e[at] == '@' && e[dot] == '.'
    && forall k :: 0 <= k < |e| && k != at ==> IsPlain(e[k])
  }

  /** Splitting a shaped string at its `@` and its dot gives the three runs of the pattern. */
  lemma {:induction false} ShapedMatches(e: string, at: int, dot: int)
    requires ShapedAt(e, at, dot)
    ensures MatchesEmailRegex(e)
  {
    var local, domain, tld := e[..at], e[at + 1..dot], e[dot + 1..];
    assert e == local + "@" + domain + "." + tld;
    assert forall i :: 0 <= i < |domain| ==> domain[i] == e[at + 1 + i];
    assert forall i :: 0 <= i < |tld| ==> tld[i] == e[dot + 1 + i];
    assert PlainRun(local) && PlainRun(domain) && PlainRun(tld);
  }

  /** A concatenation the pattern matches has its `@` and its dot where the runs meet. */
  lemma {:induction false} MatchShaped(local: string, domain: string, tld: string)
    requires PlainRun(local) && PlainRun(domain) && PlainRun(tld)
    ensures ShapedAt(local + "@" + domain + "." + tld, |local|, |local| + 1 + |domain|)
  {
    var e := local + "@" + domain + "." + tld;
    var at, dot := |local|, |local| + 1 + |domain|;
    assert e[at] == '@' && e[dot] == '.';
    forall k | 0 <= k < |e| && k != at
      ensures IsPlain(e[k])
    {
      if k < at {
        assert e[k] == local[k];
      } else if k < dot {
        assert e[k] == domain[k - at - 1];
      } else if k == dot {
      } else {
        assert e[k] == tld[k - dot - 1];
      }
    }
  }

  lemma EmailShapeIffRegex(e: string)
    ensures (exists at, dot :: ShapedAt(e, at, dot)) <==> MatchesEmailRegex(e)
  {
    if exists at, dot :: ShapedAt(e, at, dot) {
      var at, dot :| ShapedAt(e, at, dot);
      ShapedMatches(e, at, dot);
    }
    if MatchesEmailRegex(e) {
      var local, domain, tld :| PlainRun(local) && PlainRun(domain) && PlainRun(tld)
                                && e == local + "@" + domain + "." + tld;
      MatchShaped(local, domain, tld);
    }
  }

  /**
   * The checks `handleSubmit` runs before calling `login`, in order: a field blank after
   * trimming, then the email's shape (untrimmed), then the password's untrimmed length.
   */
  function Validate(c: Credentials): (r: Option<string>)
    ensures r.None? <==> !IsBlank(c.email) && !IsBlank(c.password) && IsEmailShaped(c.email) && |c.password| >= 6
    ensures IsBlank(c.email) || IsBlank(c.password) ==> r == Some(BlankFields)
    ensures !IsBlank(c.email) && !IsBlank(c.password) && !IsEmailShaped(c.email) ==> r == Some(InvalidEmail)
    ensures !IsBlank(c.email) && !IsBlank(c.password) && IsEmailShaped(c.email) && |c.password| < 6 ==>
              r == Some(ShortPassword)
  {
    if IsBlank(c.email) || IsBlank(c.password) then Some(BlankFields)
    else if !IsEmailShaped(c.email) then Some(InvalidEmail)
    else if |c.password| < 6 then Some(ShortPassword)
    else None
  }

  /** How the awaited `login` call ends. */
  datatype LoginOutcome = Resolved | Rejected(message: string) | RejectedNonError

  datatype SubmitResult = SubmitResult(form: LoginForm, loginCall: Option<Credentials>)

  /**
   * `handleSubmit`: a failed check records its message and never calls `login`; otherwise
   * `login` receives exactly the current credentials. On failure its message is recorded and
   * the password is cleared; `isLoading` ends false.
   */
  function HandleSubmit(f: LoginForm, outcome: LoginOutcome): (r: SubmitResult)
    ensures Validate(f.credentials).Some? ==>
              r == SubmitResult(f.(error := Validate(f.credentials)), None)
    ensures Validate(f.credentials).None? ==> r.loginCall == Some(f.credentials) && !r.form.isLoading
    ensures Validate(f.credentials).None? && outcome.Resolved? ==>
              r.form.credentials == f.credentials && r.form.error.None?
    ensures Validate(f.credentials).None? && outcome.Rejected? ==>
              r.form.credentials == Credentials(f.credentials.email, "") && r.form.error == Some(outcome.message)
    ensures Validate(f.credentials).None? && outcome.RejectedNonError? ==>
              r.form.credentials == Credentials(f.credentials.email, "") && r.form.error == Some("Error logging in")
  {
    match Validate(f.credentials)
    case Some(message) => SubmitResult(f.(error := Some(message)), None)
    case None =>
      var call := Some(f.credentials);
      match outcome
      case Resolved => SubmitResult(f.(isLoading := false, error := None), call)
      case Rejected(m) =>
        SubmitResult(LoginForm(f.credentials.(password := ""), false, Some(m)), call)
      case RejectedNonError =>
        SubmitResult(LoginForm(f.credentials.(password := ""), false, Some("Error logging in")), call)
  }

  /**
   * The first failing check decides the message, whatever the later checks would say: a blank
   * field (either one) hides everything about the other field, and a malformed email hides
   * the password's length.
   */
  lemma ValidationOrder(c: Credentials, d: Credentials)
    ensures IsBlank(c.email) && IsBlank(d.email) ==> Validate(c) == Validate(d)
    ensures IsBlank(c.password) && IsBlank(d.password) ==> Validate(c) == Validate(d)
    ensures c.email == d.email && !IsBlank(c.password) && !IsBlank(d.password) && !IsEmailShaped(c.email) ==>
              Validate(c) == Validate(d)
  {
  }

  /** Edits of different fields commute, and a later edit of a field overrides an earlier one. */
  lemma HandleChangeLaws(f: LoginForm, a: Field, b: Field, x: string, y: string)
    ensures a != b ==> HandleChange(HandleChange(f, a, x), b, y) == HandleChange(HandleChange(f, b, y), a, x)
    ensures HandleChange(HandleChange(f, a, x), a, y) == HandleChange(f, a, y)
  {
  }

  /** "a@b.com" has the shape the email check wants. */
  lemma ExampleEmailShaped()
    ensures IsEmailShaped("a@b.com")
  {
    assert IsPlain('a') && IsPlain('b') && IsPlain('c') && IsPlain('o') && IsPlain('m');
    assert PlainRun("a") && PlainRun("b") && PlainRun("com");
    assert "a@b.com" == "a" + "@" + "b" + "." + "com";
  }

  /** Neither field of ("a@b.com", "short") is blank. */
  lemma ExampleFieldsFilled()
    ensures !IsBlank("a@b.com") && !IsBlank("short")
  {
    assert !IsSpace("a@b.com"[0]);
    assert !IsSpace("short"[0]);
  }

  /** ("a@b.com", "short") passes the first two checks and is rejected as too short. */
  lemma ShortPasswordExample()
    ensures Validate(Credentials("a@b.com", "short")) == Some(ShortPassword)
  {
    ExampleEmailShaped();
    ExampleFieldsFilled();
  }
}
