/**
 * The native client's authentication service
 * (baby-sleep-native-fixed/src/services/authService.ts): the checks signup
 * and login make before any request, the payloads they send, how a failed
 * request becomes the message the user sees, how checkSession treats a 401,
 * and logout's unconditional clearing of the stored session.
 *
 * The HTTP request itself is a parameter: the reply the server would give
 * (or the error axios would reject with) is passed in, and the method
 * reports the payload it would have sent.
 */
module AuthService {
  import opened Wrappers
  import opened Text
  import W = WebValidation
  import NV = NativeValidation
  import S = Storage

  // ---------------------------------------------------------------- the HTTP layer, abstractly

  /** error.response: its HTTP status and the `error` field of its body, if any. */
  datatype ServerReply = ServerReply(status: int, error: Option<string>)

  /** What axios rejects with: its code, the response if one arrived, and whether a request went out. */
  datatype RequestError = RequestError(code: string, response: Option<ServerReply>, requestSent: bool)

  /** The settled request: the body of a 2xx response, or the rejection. */
  datatype Reply<T> = Ok(data: T) | Failed(err: RequestError)

  /** How signup and login settle: with the server's data, or by throwing an Error with a message. */
  datatype Outcome<T> = Resolved(value: T) | Thrown(message: string)

  /** The user record returned by signup and login. */
  datatype AuthResponse = AuthResponse(sessionToken: string, username: string, userId: string,
                                       firstName: Option<string>, profilePicture: Option<string>,
                                       bio: Option<string>)

  const TimeoutCode := "ECONNABORTED"

  const MsgTimeout := "Request timed out. Please check your connection and try again."
  const MsgSignupFailed := "Failed to create account. Please try again."
  const MsgLoginFailed := "Failed to login. Please try again."
  const MsgNoConnection := "Unable to connect to server. Please check your internet connection."
  const MsgUnexpected := "An unexpected error occurred. Please try again."
  const MsgBadCredentials := "Invalid username or password"
  const MsgInvalidFirstName := "Invalid first name"
  const MsgInvalidLastName := "Invalid last name"
  const MsgInvalidEmail := "Please enter a valid email address"
  const MsgInvalidUsername := "Invalid username"
  const MsgUsernameRequired := "Username is required"
  const MsgPasswordRequired := "Password is required"

  /** JavaScript's `x || fallback` on an optional string: an absent or empty x gives the fallback. */
  function OrElse(x: Option<string>, fallback: string): (r: string)
    ensures r == fallback || (x.Some? && r == x.value)
    ensures fallback != [] ==> r != []
  {
    if x.Some? && x.value != [] then x.value else fallback
  }

  /** The message is either one of the fixed texts or the server's own `error` field. */
  predicate FixedOrServer(m: string, fixed: set<string>, e: RequestError) {
    m in fixed || (e.response.Some? && e.response.value.error == Some(m))
  }

  // ---------------------------------------------------------------- signup

  /** An opaque baby-profile draft; signup forwards it untouched. */
  datatype BabyDraft = BabyDraft(fields: map<string, string>)

  datatype SleepGoals = SleepGoals(goal1: Option<string>, goal2: Option<string>, goal3: Option<string>)

  datatype SignupData = SignupData(firstName: string, lastName: string, email: string, password: string,
                                   username: string, useRandomUsername: bool, rememberMe: Option<bool>,
                                   babyProfiles: Option<seq<BabyDraft>>, sleepGoals: Option<SleepGoals>)

  /** The body of POST /auth/signup; an absent optional field is left out of the JSON. */
  datatype SignupPayload = SignupPayload(firstName: string, lastName: string, email: string, password: string,
                                         username: string, useRandomUsername: bool, rememberMe: bool,
                                         babyProfiles: Option<seq<BabyDraft>>, sleepGoals: Option<SleepGoals>)

  /** The username format is checked only outside random mode and only for a supplied username. */
  predicate ChecksUsername(d: SignupData) { !d.useRandomUsername && d.username != [] }

  /**
   * The first failing pre-check, in the order first name, last name, email,
   * username, password; None when all pass. A password failure reports every
   * failing rule joined with ". ".
   */
  function SignupCheck(d: SignupData): (r: Option<string>)
    ensures r.Some? ==> |r.value| > 0
  {
    var first := NV.ValidateName(JsStr(d.firstName), "First name");
    var last := NV.ValidateName(JsStr(d.lastName), "Last name");
    var user := NV.ValidateUsername(JsStr(d.username));
    var errors := NV.PasswordErrors(JsStr(d.password));
    if !first.isValid then Some(OrElse(first.error, MsgInvalidFirstName))
    else if !last.isValid then Some(OrElse(last.error, MsgInvalidLastName))
    else if !NV.IsValidEmail(JsStr(d.email)) then Some(MsgInvalidEmail)
    else if ChecksUsername(d) && !user.isValid then Some(OrElse(user.error, MsgInvalidUsername))
    else if errors != [] then Some(JoinWith(errors, ". "))
    else None
  }

  /** The payload: names and username trimmed, email trimmed and lower-cased, optional parts only when given. */
  function BuildSignupPayload(d: SignupData): (p: SignupPayload)
    ensures p.password == d.password && p.useRandomUsername == d.useRandomUsername
    ensures p.rememberMe <==> d.rememberMe == Some(true)
    ensures p.babyProfiles.Some? <==> d.babyProfiles.Some? && d.babyProfiles.value != []
    ensures p.babyProfiles.Some? ==> p.babyProfiles == d.babyProfiles
    ensures p.sleepGoals == d.sleepGoals
  {
    SignupPayload(JsTrim(d.firstName), JsTrim(d.lastName), ToLower(JsTrim(d.email)), d.password,
                  if d.username != [] then JsTrim(d.username) else [],
                  d.useRandomUsername, d.rememberMe == Some(true),
                  if d.babyProfiles.Some? && |d.babyProfiles.value| > 0 then d.babyProfiles else None,
                  d.sleepGoals)
  }

  /** signup's catch block: timeout first, then the server's message or a generic one, then no connection. */
  function SignupErrorMessage(e: RequestError): (m: string)
    ensures |m| > 0
    ensures FixedOrServer(m, {MsgTimeout, MsgSignupFailed, MsgNoConnection, MsgUnexpected}, e)
  {
    if e.code == TimeoutCode then MsgTimeout
    else if e.response.Some? then OrElse(e.response.value.error, MsgSignupFailed)
    else if e.requestSent then MsgNoConnection
    else MsgUnexpected
  }

  /**
   * signup: the pre-checks run in order and the first failure throws before
   * anything is sent; otherwise the normalised payload is posted and the
   * reply becomes the result or a user-facing message.
   */
  method Signup(d: SignupData, reply: Reply<AuthResponse>) returns (sent: Option<SignupPayload>, result: Outcome<AuthResponse>)
    ensures sent.None? <==> SignupCheck(d).Some?
    ensures SignupCheck(d).Some? ==> result == Thrown(SignupCheck(d).value)
    ensures sent.Some? ==> sent.value == BuildSignupPayload(d)
    ensures sent.Some? && reply.Ok? ==> result == Resolved(reply.data)
    ensures sent.Some? && reply.Failed? ==> result == Thrown(SignupErrorMessage(reply.err))
  {
    var first := NV.ValidateName(JsStr(d.firstName), "First name");
    if !first.isValid {
      return None, Thrown(OrElse(first.error, MsgInvalidFirstName));
    }
    var last := NV.ValidateName(JsStr(d.lastName), "Last name");
    if !last.isValid {
      return None, Thrown(OrElse(last.error, MsgInvalidLastName));
    }
    if !NV.IsValidEmail(JsStr(d.email)) {
      return None, Thrown(MsgInvalidEmail);
    }
    if !d.useRandomUsername && d.username != [] {
      var user := NV.ValidateUsername(JsStr(d.username));
      if !user.isValid {
        return None, Thrown(OrElse(user.error, MsgInvalidUsername));
      }
    }
    var pw := NV.ValidatePassword(JsStr(d.password));
    if !pw.isValid {
      return None, Thrown(JoinWith(pw.errors, ". "));
    }
    var payload := BuildSignupPayload(d);
    sent := Some(payload);
    match reply {
      case Ok(data) => result := Resolved(data);
      case Failed(e) => result := Thrown(SignupErrorMessage(e));
    }
  }

  /** Once the first name fails, no other field changes the message. */
  lemma FirstNameFailureMasksRest(d: SignupData, e: SignupData)
    requires !NV.ValidateName(JsStr(d.firstName), "First name").isValid
    requires e.firstName == d.firstName
    ensures SignupCheck(e) == SignupCheck(d)
  {}

  /** Once the names pass and the email fails, neither username nor password matters. */
  lemma EmailFailureMasksRest(d: SignupData, e: SignupData)
    requires NV.ValidateName(JsStr(d.firstName), "First name").isValid
    requires NV.ValidateName(JsStr(d.lastName), "Last name").isValid
    requires !NV.IsValidEmail(JsStr(d.email))
    requires e.firstName == d.firstName && e.lastName == d.lastName && e.email == d.email
    ensures SignupCheck(e) == SignupCheck(d) == Some(MsgInvalidEmail)
  {}

  /** In random mode the typed username is never checked. */
  lemma RandomModeIgnoresUsername(d: SignupData, u: string)
    requires d.useRandomUsername
    ensures SignupCheck(d.(username := u)) == SignupCheck(d)
  {}

  /** An empty username is never checked either: it behaves as random mode. */
  lemma EmptyUsernameSkipsFormat(d: SignupData)
    requires d.username == []
    ensures SignupCheck(d) == SignupCheck(d.(useRandomUsername := true))
  {}

  /** When the password is the only problem, the thrown message mentions every failing rule. */
  lemma {:induction false} PasswordMessageListsEveryFailure(d: SignupData, k: nat)
    requires NV.ValidateName(JsStr(d.firstName), "First name").isValid
    requires NV.ValidateName(JsStr(d.lastName), "Last name").isValid
    requires NV.IsValidEmail(JsStr(d.email)) && !ChecksUsername(d)
    requires k < |NV.PasswordErrors(JsStr(d.password))|
    ensures SignupCheck(d).Some?
    ensures Contains(SignupCheck(d).value, NV.PasswordErrors(JsStr(d.password))[k])
  {
    JoinWithContains(NV.PasswordErrors(JsStr(d.password)), ". ", k);
  }

  /** Signup only sends when every check passes, and then the password satisfies every rule. */
  lemma SentPasswordSatisfiesRules(d: SignupData)
    requires SignupCheck(d) == None
    ensures NV.PasswordErrors(JsStr(d.password)) == []
    ensures NV.IsValidEmail(JsStr(d.email))
  {}

  /** The email sent is already trimmed and has no upper-case letter. */
  lemma SignupEmailNormalised(d: SignupData)
    ensures var m := BuildSignupPayload(d).email;
            JsTrim(m) == m && forall i :: 0 <= i < |m| ==> !IsUpper(m[i])
  {
    var m := BuildSignupPayload(d).email;
    assert m == ToLower(JsTrim(d.email));
    LowerKeepsTrimmed(d.email);
    LowerHasNoUpper(JsTrim(d.email));
  }

  lemma LowerHasNoUpper(s: string)
    ensures var m := ToLower(s); forall i :: 0 <= i < |m| ==> !IsUpper(m[i])
  {}

  /** Lower-casing a trimmed string leaves it trimmed: letters are not whitespace. */
  lemma LowerKeepsTrimmed(s: string)
    ensures var t := JsTrim(s); JsTrim(ToLower(t)) == ToLower(t)
  {
    var t := JsTrim(s);
    if t != [] {
      assert !IsJsSpace(t[0]) && !IsJsSpace(t[|t| - 1]) by {
        var i, j := TrimShape(s, IsJsSpace);
      }
      LowerKeepsEnds(t);
    }
  }

  lemma LowerKeepsEnds(t: string)
    requires t != [] && !IsJsSpace(t[0]) && !IsJsSpace(t[|t| - 1])
    ensures JsTrim(ToLower(t)) == ToLower(t)
  {
    var m := ToLower(t);
    LowerKeepsSpace(t[0]);
    LowerKeepsSpace(t[|t| - 1]);
    TrimUntouched(m, IsJsSpace);
  }

  lemma LowerKeepsSpace(c: char)
    ensures IsJsSpace(ToLowerChar(c)) <==> IsJsSpace(c)
  {}

  /** Names are sent trimmed: trimming them again changes nothing. */
  lemma SignupNamesTrimmed(d: SignupData)
    ensures var p := BuildSignupPayload(d);
            JsTrim(p.firstName) == p.firstName && JsTrim(p.lastName) == p.lastName
            && JsTrim(p.username) == p.username
  {
    TrimIdempotent(d.firstName, IsJsSpace);
    TrimIdempotent(d.lastName, IsJsSpace);
    TrimIdempotent(d.username, IsJsSpace);
  }

  /** A timeout is reported as such even when a response is attached. */
  lemma TimeoutWins(e: RequestError)
    requires e.code == TimeoutCode
    ensures SignupErrorMessage(e) == MsgTimeout && LoginErrorMessage(e) == MsgTimeout
  {}

  /** The server's own non-empty `error` text reaches the user on a failed signup. */
  lemma SignupShowsServerError(e: RequestError, m: string)
    requires e.code != TimeoutCode && m != []
    requires e.response.Some? && e.response.value.error == Some(m)
    ensures SignupErrorMessage(e) == m
  {}

  // ---------------------------------------------------------------- login

  datatype LoginData = LoginData(username: string, password: string, rememberMe: Option<bool>)

  /** The body of POST /auth/login. */
  datatype LoginPayload = LoginPayload(username: string, password: string, rememberMe: bool)

  /** login's pre-checks: a blank username, then an empty password. */
  function LoginCheck(d: LoginData): (r: Option<string>)
    ensures r == None <==> JsTrim(d.username) != [] && d.password != []
  {
    if JsTrim(d.username) == [] then Some(MsgUsernameRequired)
    else if d.password == [] then Some(MsgPasswordRequired)
    else None
  }

  function BuildLoginPayload(d: LoginData): (p: LoginPayload)
    ensures p.password == d.password && (p.rememberMe <==> d.rememberMe == Some(true))
    ensures JsTrim(p.username) == p.username
  {
    TrimIdempotent(d.username, IsJsSpace);
    LoginPayload(JsTrim(d.username), d.password, d.rememberMe == Some(true))
  }

  /** login's catch block: a 401 always reads 'Invalid username or password', whatever the body says. */
  function LoginErrorMessage(e: RequestError): (m: string)
    ensures |m| > 0
    ensures FixedOrServer(m, {MsgTimeout, MsgBadCredentials, MsgLoginFailed, MsgNoConnection, MsgUnexpected}, e)
  {
    if e.code == TimeoutCode then MsgTimeout
    else if e.response.Some? then
      if e.response.value.status == 401 then MsgBadCredentials
      else OrElse(e.response.value.error, MsgLoginFailed)
    else if e.requestSent then MsgNoConnection
    else MsgUnexpected
  }

  /** login: the pre-checks, then the trimmed payload, then the reply or its message. */
  method Login(d: LoginData, reply: Reply<AuthResponse>) returns (sent: Option<LoginPayload>, result: Outcome<AuthResponse>)
    ensures sent.None? <==> LoginCheck(d).Some?
    ensures LoginCheck(d).Some? ==> result == Thrown(LoginCheck(d).value)
    ensures sent.Some? ==> sent.value == BuildLoginPayload(d)
    ensures sent.Some? && reply.Ok? ==> result == Resolved(reply.data)
    ensures sent.Some? && reply.Failed? ==> result == Thrown(LoginErrorMessage(reply.err))
  {
    if d.username == [] || JsTrim(d.username) == [] {
      return None, Thrown(MsgUsernameRequired);
    }
    if d.password == [] {
      return None, Thrown(MsgPasswordRequired);
    }
    sent := Some(BuildLoginPayload(d));
    match reply {
      case Ok(data) => result := Resolved(data);
      case Failed(e) => result := Thrown(LoginErrorMessage(e));
    }
  }

  /** Two 401 rejections read the same, whatever their bodies say: nothing of the server's text leaks. */
  lemma Login401HidesServerText(e1: RequestError, e2: RequestError)
    requires e1.code != TimeoutCode && e2.code != TimeoutCode
    requires e1.response.Some? && e1.response.value.status == 401
    requires e2.response.Some? && e2.response.value.status == 401
    ensures LoginErrorMessage(e1) == LoginErrorMessage(e2) == MsgBadCredentials
  {}

  /** Outside a 401, login shows the server's own non-empty `error` text. */
  lemma LoginShowsOtherServerErrors(e: RequestError, m: string)
    requires e.code != TimeoutCode && m != []
    requires e.response.Some? && e.response.value.status != 401 && e.response.value.error == Some(m)
    ensures LoginErrorMessage(e) == m
  {}

  // ---------------------------------------------------------------- checkSession

  /** The fields of GET /auth/session's body that the clients read. */
  datatype Session = Session(authenticated: bool, username: Option<string>, userId: Option<string>,
                             profilePicture: Option<string>, bio: Option<string>)

  const Unauthenticated := Session(false, None, None, None, None)

  /** How checkSession settles: with a session, or by rethrowing the request's error. */
  datatype Settled = Answered(session: Session) | Rethrown(err: RequestError)

  predicate Is401(e: RequestError) { e.response.Some? && e.response.value.status == 401 }

  /** checkSession: a 401 is an unauthenticated answer; every other failure is rethrown unchanged. */
  function CheckSession(reply: Reply<Session>): (r: Settled)
    ensures r.Rethrown? <==> reply.Failed? && !Is401(reply.err)
    ensures r.Rethrown? ==> r.err == reply.err
    ensures reply.Failed? && Is401(reply.err) ==> r == Answered(Unauthenticated)
    ensures reply.Ok? ==> r == Answered(reply.data)
  {
    match reply
    case Ok(s) => Answered(s)
    case Failed(e) => if Is401(e) then Answered(Unauthenticated) else Rethrown(e)
  }

  // ---------------------------------------------------------------- logout

  /**
   * logout: reads the token, posts /auth/logout when one is stored (a failed
   * request is only logged), and in every case clears the session. The
   * request's outcome therefore does not appear: nothing depends on it.
   */
  method Logout(store: S.SessionStore, tokenReadFails: bool, clearFailing: set<S.Key>) returns (posted: Option<string>)
    modifies store
    ensures posted.Some? <==> !tokenReadFails && S.TokenKey in old(store.secure) && old(store.secure)[S.TokenKey] != []
    ensures posted.Some? ==> posted.value == old(store.secure)[S.TokenKey]
    ensures store.general == old(store.general) - (S.ProfileKeys - clearFailing)
    ensures store.secure == if S.TokenKey in clearFailing then old(store.secure) else old(store.secure) - {S.TokenKey}
    ensures old(store.Separated()) ==> store.Separated()
  {
    var token := store.GetToken(tokenReadFails);
    posted := None;
    if token.Some? && token.value != [] {
      posted := Some(token.value);
    }
    store.ClearSession(clearFailing);
  }
}
