/**
 * The session holder (src/context/AuthProvider.tsx): the persisted token, the Authorization
 * header attached to every request, the current user and the `loading` flag, changed by
 * `logout`, `checkAuth` and `login`. Network answers are inputs; requests and navigations
 * are emitted as `Action`s in the order they happen.
 */
module AuthProvider {
  import opened Types
  import opened JsText

  /**
   * `stored` is the `token` slot of local storage, `header` the default Authorization header
   * of the API client (None once deleted).
   */
  datatype Session = Session(stored: Option<string>, header: Option<string>, user: Option<User>, loading: bool)

  datatype Action =
    | GetMe(authorization: string)        // GET /api/v1/auth/me
    | PostLogin(credentials: Credentials) // POST /api/v1/auth/login
    | NavigateHome                        // navigate("/")

  /** The provider as first rendered: whatever token storage holds, nobody signed in, loading. */
  function InitialSession(stored: Option<string>): (s: Session)
    ensures s.user.None? && s.header.None? && s.loading && s.stored == stored
  {
    Session(stored, None, None, true)
  }

  const BearerPrefix: string := "Bearer "

  /** The Authorization value `Bearer ${token}` (section 2.1 of RFC 6750). */
  function Bearer(token: string): string {
    BearerPrefix + token
  }

  /** The token a Bearer Authorization value carries. */
  function TokenOf(header: string): Option<string> {
    if |header| >= |BearerPrefix| && header[..|BearerPrefix|] == BearerPrefix
    then Some(header[|BearerPrefix|..]) else None
  }

  /** The header names the very token it was built from. */
  lemma TokenOfBearer(token: string)
    ensures TokenOf(Bearer(token)) == Some(token)
  {
    assert Bearer(token)[..|BearerPrefix|] == BearerPrefix;
    assert Bearer(token)[|BearerPrefix|..] == token;
  }

  /** A character of `b64token` in section 2.1 of RFC 6750: ALPHA / DIGIT / "-" / "." / "_" / "~" / "+" / "/". */
  predicate IsB64Char(c: char) {
    ('A' <= c <= 'Z') || ('a' <= c <= 'z') || ('0' <= c <= '9')
    || c == '-' || c == '.' || c == '_' || c == '~' || c == '+' || c == '/'
  }

  /** The number of trailing `=` characters. */
  function TrailingPadding(s: string): (n: nat)
    ensures n <= |s|
    ensures forall i :: |s| - n <= i < |s| ==> s[i] == '='
    ensures n < |s| ==> s[|s| - n - 1] != '='
  {
    if |s| > 0 && s[|s| - 1] == '=' then 1 + TrailingPadding(s[..|s| - 1]) else 0
  }

  /** `b64token = 1*( ALPHA / DIGIT / "-" / "." / "_" / "~" / "+" / "/" ) *"="`. */
  predicate IsB64Token(t: string) {
    var k := |t| - TrailingPadding(t);
    k > 0 && forall i :: 0 <= i < k ==> IsB64Char(t[i])
  }

  /** The number of leading spaces. */
  function LeadingSpaces(s: string): (n: nat)
    ensures n <= |s|
    ensures forall i :: 0 <= i < n ==> s[i] == ' '
    ensures n < |s| ==> s[n] != ' '
  {
    if |s| > 0 && s[0] == ' ' then 1 + LeadingSpaces(s[1..]) else 0
  }

  /** `credentials = "Bearer" 1*SP b64token`, section 2.1 of RFC 6750. */
  predicate IsBearerCredentials(h: string) {
    |h| >= 6 && h[..6] == "Bearer"
    && var rest := h[6..];
       var n := LeadingSpaces(rest);
       n >= 1 && IsB64Token(rest[n..])
  }

  /** A b64token yields RFC 6750 credentials; the empty token does not. */
  lemma BearerConforms(token: string)
    ensures IsB64Token(token) ==> IsBearerCredentials(Bearer(token))
    ensures !IsBearerCredentials(Bearer(""))
  {
    var h := Bearer(token);
    assert h[..6] == "Bearer";
    assert h[6..] == " " + token;
    if IsB64Token(token) {
      assert token[0] != ' ';
      assert LeadingSpaces(h[6..]) == 1 + LeadingSpaces(token);
      assert (" " + token)[1..] == token;
    }
    var e := Bearer("");
    assert e[6..] == " ";
    assert LeadingSpaces(" ") == 1;
  }

  /** The token slot holds something truthy (`if (!token)` fails). */
  predicate HasToken(stored: Option<string>) {
    stored.Some? && stored.value != ""
  }

  /**
   * `logout`: forget the token and the header, drop the user, go home. `loading` is not touched.
   */
  function Logout(s: Session): (r: Session)
    ensures r.stored.None? && r.header.None? && r.user.None?
    ensures r.loading == s.loading
  {
    s.(stored := None, header := None, user := None)
  }

  /** The navigation `logout` performs. */
  const LogoutEffects: seq<Action> := [NavigateHome]

  /** Logging out twice leaves the same state as logging out once. */
  lemma LogoutIdempotent(s: Session)
    ensures Logout(Logout(s)) == Logout(s)
  {
  }

  datatype CheckResult = CheckResult(session: Session, authenticated: bool, effects: seq<Action>)

  /**
   * `checkAuth`, given what `/auth/me` answers (`me`, None when the request fails).
   * Without a token: nobody is signed in, no request. With one: the header becomes
   * `Bearer <token>` and the profile is requested; success stores the user, failure logs out.
   * It never throws, and `loading` always ends false.
   */
  function CheckAuth(s: Session, me: Option<User>): (r: CheckResult)
    ensures !r.session.loading
    ensures r.authenticated <==> r.session.user.Some?
    ensures !HasToken(s.stored) ==>
              r == CheckResult(s.(user := None, loading := false), false, [])
    ensures HasToken(s.stored) ==> |r.effects| >= 1 && r.effects[0] == GetMe(Bearer(s.stored.value))
    ensures HasToken(s.stored) && me.Some? ==>
              && r.authenticated && r.session.user == me
              && r.session.stored == s.stored
              && r.session.header == Some(Bearer(s.stored.value))
              && r.effects == [GetMe(Bearer(s.stored.value))]
    ensures HasToken(s.stored) && me.None? ==>
              && !r.authenticated
              && r.session == Session(None, None, None, false)
              && r.effects == [GetMe(Bearer(s.stored.value))] + LogoutEffects
  {
    if !HasToken(s.stored) then CheckResult(s.(user := None, loading := false), false, [])
    else
      var header := Bearer(s.stored.value);
      var s1 := s.(loading := true, header := Some(header));
      match me
      case Some(u) => CheckResult(s1.(user := Some(u), loading := false), true, [GetMe(header)])
      case None => CheckResult(Logout(s1).(loading := false), false, [GetMe(header)] + LogoutEffects)
  }

  /** After `checkAuth` a signed-in user always comes with a non-empty token and its header. */
  lemma CheckAuthSessionConsistent(s: Session, me: Option<User>)
    ensures var r := CheckAuth(s, me).session;
            r.user.Some? ==> HasToken(r.stored) && r.header == Some(Bearer(r.stored.value))
  {
  }

  /** Running `checkAuth` again with the same server answer changes nothing. */
  lemma CheckAuthIdempotent(s: Session, me: Option<User>)
    ensures CheckAuth(CheckAuth(s, me).session, me).session == CheckAuth(s, me).session
  {
  }

  /** The body of a successful login response: the token may come as `token` or `accessToken`. */
  datatype LoginResponse = LoginResponse(token: JsValue, accessToken: JsValue)

  /** What the login POST can throw. */
  datatype Failure =
    | HttpError(status: int, message: JsValue)  // an AxiosError with a response; `message` is `response.data?.message`
    | NoResponse                               // an AxiosError whose request got no response
    | NotSent                                  // an AxiosError with neither response nor request
    | OtherError(errorMessage: string)         // any other `Error`
    | NotAnError                               // a thrown non-Error value

  datatype PostOutcome = Posted(response: LoginResponse) | PostFailed(failure: Failure)

  const GenericLoginError: string := "Error al iniciar sesión"

  /** The message `login` throws for a failed POST. */
  function ClassifyError(f: Failure): (m: string)
    ensures f.HttpError? && f.status == 400 ==> m == "Invalid data"
    ensures f.HttpError? && f.status == 401 ==> m == "Incorrect credentials"
    ensures f.HttpError? && f.status == 500 ==> m == "Server error"
    ensures f.HttpError? && f.status !in {400, 401, 500} ==>
              m == if Truthy(f.message) then f.message.s else "Unknown error"
    ensures f.NoResponse? ==> m == "No response from server"
    ensures f.OtherError? ==> m == f.errorMessage
    ensures f.NotSent? || f.NotAnError? ==> m == GenericLoginError
  {
    match f
    case HttpError(status, message) =>
      if status == 400 then "Invalid data"
      else if status == 401 then "Incorrect credentials"
      else if status == 500 then "Server error"
      else if Truthy(message) then ToJsString(message) else "Unknown error"
    case NoResponse => "No response from server"
    case NotSent => GenericLoginError
    case OtherError(e) => e
    case NotAnError => GenericLoginError
  }

  /**
   * The message `login` throws is never empty unless a plain `Error` carried an empty message,
   * and for the statuses 400, 401 and 500 the server's own message is never shown.
   */
  lemma ClassifyErrorMessages(f: Failure, status: int, m1: JsValue, m2: JsValue)
    ensures (f.OtherError? ==> f.errorMessage != "") ==> ClassifyError(f) != ""
    ensures status in {400, 401, 500} ==> ClassifyError(HttpError(status, m1)) == ClassifyError(HttpError(status, m2))
    ensures status !in {400, 401, 500} && Truthy(m1) ==> ClassifyError(HttpError(status, m1)) == m1.s
  {
  }

  /** `response.data.token || response.data.accessToken`. */
  function ChooseToken(r: LoginResponse): (t: JsValue)
    ensures Truthy(r.token) ==> t == r.token
    ensures !Truthy(r.token) ==> t == r.accessToken
  {
    if Truthy(r.token) then r.token else r.accessToken
  }

  datatype LoginResult = LoginResult(session: Session, thrown: Option<string>, effects: seq<Action>)

  /**
   * `login`, given the POST's outcome and what the following `checkAuth` hears from `/auth/me`.
   * On success the chosen token (coerced to a string) is stored and set as the Bearer header,
   * `checkAuth` runs, and the user is sent home. On failure a classified error is thrown and
   * the session is exactly as before.
   */
  function Login(s: Session, credentials: Credentials, post: PostOutcome, me: Option<User>): (r: LoginResult)
    ensures |r.effects| >= 1 && r.effects[0] == PostLogin(credentials)
    ensures post.PostFailed? ==>
              r == LoginResult(s, Some(ClassifyError(post.failure)), [PostLogin(credentials)])
    ensures post.Posted? ==> r.thrown.None? && r.effects[|r.effects| - 1] == NavigateHome
    ensures post.Posted? ==>
              var token := ToJsString(ChooseToken(post.response));
              var pending := s.(stored := Some(token), header := Some(Bearer(token)));
              r.session == CheckAuth(pending, me).session
              && r.effects == [PostLogin(credentials)] + CheckAuth(pending, me).effects + [NavigateHome]
  {
    match post
    case PostFailed(f) => LoginResult(s, Some(ClassifyError(f)), [PostLogin(credentials)])
    case Posted(response) =>
      var token := ToJsString(ChooseToken(response));
      var pending := s.(stored := Some(token), header := Some(Bearer(token)));
      var c := CheckAuth(pending, me);
      LoginResult(c.session, None, [PostLogin(credentials)] + c.effects + [NavigateHome])
  }

  /** A successful POST with a usable token and profile signs the user in under that token. */
  lemma LoginSignsIn(s: Session, credentials: Credentials, response: LoginResponse, u: User)
    requires ToJsString(ChooseToken(response)) != ""
    ensures var token := ToJsString(ChooseToken(response));
            var r := Login(s, credentials, Posted(response), Some(u));
            && r.thrown.None?
            && r.session == Session(Some(token), Some(Bearer(token)), Some(u), false)
            && r.effects == [PostLogin(credentials), GetMe(Bearer(token)), NavigateHome]
  {
  }

  /**
   * `||` under truthiness: the chosen token is falsy only when both fields are. Since a falsy
   * `undefined` or `null` is stored as the non-empty strings "undefined" and "null", a good
   * profile fails to sign the user in exactly when the chosen token is the empty string.
   */
  lemma ChooseTokenSignsIn(s: Session, credentials: Credentials, r: LoginResponse, u: User)
    ensures Truthy(ChooseToken(r)) <==> Truthy(r.token) || Truthy(r.accessToken)
    ensures Login(s, credentials, Posted(r), Some(u)).session.user.Some? <==> ToJsString(ChooseToken(r)) != ""
    ensures ToJsString(ChooseToken(r)) == "" <==> !Truthy(r.token) && r.accessToken == Str("")
  {
  }

  /** If the profile request after a successful POST fails, `login` does not throw: the session ends logged out. */
  lemma LoginCheckFailureLogsOut(s: Session, credentials: Credentials, response: LoginResponse)
    requires ToJsString(ChooseToken(response)) != ""
    ensures var r := Login(s, credentials, Posted(response), None);
            r.thrown.None? && r.session == Session(None, None, None, false)
  {
  }

  /**
   * A response with neither token field stores the literal string "undefined" and sends
   * `Bearer undefined`, because local storage and the template literal stringify the value.
   */
  lemma LoginMissingToken(s: Session, credentials: Credentials, me: Option<User>)
    ensures var r := Login(s, credentials, Posted(LoginResponse(Undefined, Undefined)), me);
            r.effects[1] == GetMe("Bearer undefined")
  {
  }
}
