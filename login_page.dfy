/**
 * The web sign-in page (frontend/src/components/LoginPage.jsx): the random
 * username generator and the pattern that keeps random mode on, the form
 * handlers that edit the username and the random-mode box, the reset-password
 * pre-checks, and what signup and login write to localStorage.
 *
 * Math.random is a parameter (the three draws, already scaled and floored),
 * and so is how each server request settles. localStorage is a map over the
 * key names of Storage.Key.
 */
module LoginPage {
  import opened Wrappers
  import opened Text
  import S = Storage
  import SU = SecurityUtils
  import A = AuthService
  import App

  // ---------------------------------------------------------------- generateRandomUsername

  const Adjectives: seq<string> :=
    ["sleepy", "cozy", "dreamy", "calm", "gentle", "peaceful", "serene", "tranquil", "restful", "quiet"]

  const Nouns: seq<string> :=
    ["baby", "star", "moon", "cloud", "angel", "bear", "bunny", "bird", "butterfly", "flower"]

  /** The three draws of generateRandomUsername: floor(random * length) for the lists, floor(random * 1000) for the number. */
  datatype Draw = Draw(adjective: nat, noun: nat, number: nat)

  /** What Math.floor(Math.random() * k) can yield for each draw. */
  predicate InRange(d: Draw) { d.adjective < |Adjectives| && d.noun < |Nouns| && d.number < 1000 }

  /** `${adjective}_${noun}_${number}` */
  function GenerateUsername(d: Draw): string
    requires InRange(d)
  {
    Adjectives[d.adjective] + "_" + Nouns[d.noun] + "_" + NatToString(d.number)
  }

  // ---------------------------------------------------------------- the pattern /^[a-z]+_[a-z]+_\d+$/

  predicate LowerWord(w: string) { |w| > 0 && All(w, IsLower) }

  predicate DigitWord(w: string) { |w| > 0 && All(w, IsDigit) }

  /**
   * /^[a-z]+_[a-z]+_\d+$/. Neither [a-z] nor \d contains '_', so the text
   * matches exactly when it splits at '_' into three pieces: two runs of
   * lower-case letters and a run of digits.
   */
  predicate RandomPattern(u: string) {
    var parts := Split(u, '_');
    |parts| == 3 && LowerWord(parts[0]) && LowerWord(parts[1]) && DigitWord(parts[2])
  }

  /** Two lower-case words and a digit run joined by '_' match the pattern, and split back into those three. */
  lemma PatternOfParts(x: string, y: string, z: string)
    requires LowerWord(x) && LowerWord(y) && DigitWord(z)
    ensures Split(x + "_" + y + "_" + z, '_') == [x, y, z]
    ensures RandomPattern(x + "_" + y + "_" + z)
  {
    assert '_' !in x && '_' !in y && '_' !in z by {
      assert !IsLower('_') && !IsDigit('_');
    }
    NoSeparatorSingle(z, '_');
    SplitAtSeparator(y, z, '_');
    SplitAtSeparator(x, y + "_" + z, '_');
    assert x + "_" + y + "_" + z == x + ['_'] + (y + ['_'] + z);
  }

  /** Conversely, a matching text is two lower-case words and a digit run joined by '_'. */
  lemma PatternParts(u: string)
    requires RandomPattern(u)
    ensures var parts := Split(u, '_');
            u == parts[0] + "_" + parts[1] + "_" + parts[2]
  {
    var parts := Split(u, '_');
    SplitJoin(u, '_');
    assert parts[1..][1..] == [parts[2]];
    assert Join(parts[1..], '_') == parts[1] + ['_'] + parts[2];
    assert Join(parts, '_') == parts[0] + ['_'] + Join(parts[1..], '_');
  }

  /** The adjectives are lower-case words of 4 to 8 letters. */
  lemma AdjectiveShape(i: nat)
    requires i < |Adjectives|
    ensures LowerWord(Adjectives[i]) && 4 <= |Adjectives[i]| <= 8
  {
    var w := Adjectives[i];
    assert forall k :: 0 <= k < |w| ==> IsLower(w[k]) by {
      if i == 0 { assert w == "sleepy"; }
      else if i == 1 { assert w == "cozy"; }
      else if i == 2 { assert w == "dreamy"; }
      else if i == 3 { assert w == "calm"; }
      else if i == 4 { assert w == "gentle"; }
      else if i == 5 { assert w == "peaceful"; }
      else if i == 6 { assert w == "serene"; }
      else if i == 7 { assert w == "tranquil"; }
      else if i == 8 { assert w == "restful"; }
      else { assert w == "quiet"; }
    }
  }

  /** The nouns are lower-case words of 4 to 9 letters. */
  lemma NounShape(i: nat)
    requires i < |Nouns|
    ensures LowerWord(Nouns[i]) && 4 <= |Nouns[i]| <= 9
  {
    var w := Nouns[i];
    assert forall k :: 0 <= k < |w| ==> IsLower(w[k]) by {
      if i == 0 { assert w == "baby"; }
      else if i == 1 { assert w == "star"; }
      else if i == 2 { assert w == "moon"; }
      else if i == 3 { assert w == "cloud"; }
      else if i == 4 { assert w == "angel"; }
      else if i == 5 { assert w == "bear"; }
      else if i == 6 { assert w == "bunny"; }
      else if i == 7 { assert w == "bird"; }
      else if i == 8 { assert w == "butterfly"; }
      else { assert w == "flower"; }
    }
  }

  /**
   * A generated name is adjective_noun_number: split at '_' it gives back an
   * adjective of the list, a noun of the list and the decimal digits of the
   * drawn number, which is at most 999.
   */
  lemma GeneratedParts(d: Draw)
    requires InRange(d)
    ensures var parts := Split(GenerateUsername(d), '_');
            |parts| == 3 && parts[0] == Adjectives[d.adjective] && parts[1] == Nouns[d.noun]
            && DigitWord(parts[2]) && DigitsValue(parts[2]) == d.number <= 999
  {
    AdjectiveShape(d.adjective);
    NounShape(d.noun);
    PatternOfParts(Adjectives[d.adjective], Nouns[d.noun], NatToString(d.number));
    NatToStringValue(d.number);
  }

  /** Every generated name matches the pattern that keeps random mode on. */
  lemma GeneratedMatchesPattern(d: Draw)
    requires InRange(d)
    ensures RandomPattern(GenerateUsername(d))
  {
    AdjectiveShape(d.adjective);
    NounShape(d.noun);
    PatternOfParts(Adjectives[d.adjective], Nouns[d.noun], NatToString(d.number));
  }

  /** A generated name has 11 to 22 characters, each a lower-case letter, a digit or '_'. */
  lemma GeneratedShape(d: Draw)
    requires InRange(d)
    ensures var u := GenerateUsername(d);
            11 <= |u| <= 22 && forall k :: 0 <= k < |u| ==> IsLower(u[k]) || IsDigit(u[k]) || u[k] == '_'
  {
    AdjectiveShape(d.adjective);
    NounShape(d.noun);
    NatToStringLength(d.number);
  }

  /** The backend's validate_username accepts every generated name. */
  lemma GeneratedPassesBackend(d: Draw)
    requires InRange(d)
    ensures SU.ValidateUsername(SU.PyStr(GenerateUsername(d))).ok
  {
    var u := GenerateUsername(d);
    GeneratedShape(d);
    AdjectiveShape(d.adjective);
    assert IsLower(u[0]);
    assert IsDigit(u[|u| - 1]);
    TrimUntouched(u, IsPySpace);
    SU.UsernameAcceptedIff(u);
  }

  /**
   * shouldUseRandom: random mode reaches the server only when the box is
   * ticked and the username still matches the pattern (a matching name is
   * never empty, so the separate emptiness test adds nothing).
   */
  function ShouldUseRandom(box: bool, username: string): (r: bool)
    ensures r <==> box && RandomPattern(username)
  {
    box && username != [] && RandomPattern(username)
  }

  // ---------------------------------------------------------------- remember_me storage

  /** The fields of a signup or login response the page stores. */
  datatype Response = Response(sessionToken: string, username: string, userId: string)

  /** How authService.signup or login settled: with a value (null is None), or by throwing an Error with a message. */
  datatype AuthReply = Returned(response: Option<Response>) | Threw(message: string)

  const MsgInvalidResponse := "Invalid response from server"
  const MsgAuthFailed := "An error occurred. Please try again."

  /** The keys a successful signup or login writes or removes. */
  const SessionKeys: set<S.Key> := {S.SessionToken, S.Username, S.UserId, S.RememberMe}

  /**
   * What a successful signup or login leaves in localStorage: the token,
   * username and user id; remember_me is 'true' when the box was ticked and
   * removed otherwise; no other key is touched.
   */
  function StoreSession(local: map<S.Key, string>, resp: Response, remember: bool): (r: map<S.Key, string>)
    ensures S.SessionToken in r && r[S.SessionToken] == resp.sessionToken
    ensures S.Username in r && r[S.Username] == resp.username
    ensures S.UserId in r && r[S.UserId] == resp.userId
    ensures S.RememberMe in r <==> remember
    ensures remember ==> r[S.RememberMe] == "true"
    ensures forall k :: k !in SessionKeys ==> (k in r <==> k in local) && (k in local ==> r[k] == local[k])
  {
    var stored := local[S.SessionToken := resp.sessionToken][S.Username := resp.username][S.UserId := resp.userId];
    if remember then stored[S.RememberMe := "true"] else stored - {S.RememberMe}
  }

  /** The page's state once a signup or login request settled. */
  datatype Settlement = Settlement(local: map<S.Key, string>, error: string, signedIn: Option<Response>)

  /**
   * The try/catch of handleSignup and handleLogin: a response with a truthy
   * session_token is stored and handed to onLoginSuccess; anything else
   * leaves localStorage as it was and shows a non-empty error.
   */
  function SettleAuth(local: map<S.Key, string>, reply: AuthReply, remember: bool): (o: Settlement)
    ensures o.signedIn.Some? <==> reply.Returned? && reply.response.Some? && reply.response.value.sessionToken != []
    ensures o.signedIn.Some? ==>
              o.signedIn == reply.response && o.error == [] && o.local == StoreSession(local, o.signedIn.value, remember)
    ensures o.signedIn.None? ==> o.local == local && o.error != []
    ensures reply.Threw? && reply.message != [] ==> o.error == reply.message
  {
    match reply
    case Returned(r) =>
      if r.Some? && r.value.sessionToken != [] then Settlement(StoreSession(local, r.value, remember), [], r)
      else Settlement(local, MsgInvalidResponse, None)
    case Threw(m) => Settlement(local, if m == [] then MsgAuthFailed else m, None)
  }

  /**
   * With remember-me ticked, the stored session survives the web client's
   * start-up check whatever the server answers.
   */
  lemma RememberedSessionSurvivesCheck(local: map<S.Key, string>, resp: Response, settled: A.Settled)
    ensures var r := StoreSession(local, resp, true);
            App.Decide(App.HasCredentials(r), App.RememberMe(r), settled) != App.ClearStored
  {
    var r := StoreSession(local, resp, true);
    assert App.RememberMe(r);
  }

  /**
   * Without remember-me, a stored session with a token and a username is
   * cleared by the start-up check once the server calls it unauthenticated.
   */
  lemma UnrememberedSessionCleared(local: map<S.Key, string>, resp: Response)
    requires resp.sessionToken != [] && resp.username != []
    ensures var r := StoreSession(local, resp, false);
            App.Decide(App.HasCredentials(r), App.RememberMe(r), A.Answered(A.Unauthenticated)) == App.ClearStored
  {
    var r := StoreSession(local, resp, false);
    assert App.HasCredentials(r) && !App.RememberMe(r);
  }

  // ---------------------------------------------------------------- reset password

  const MsgMismatch := "Passwords do not match"
  const MsgTooShort := "Password must be at least 6 characters"
  const MsgResetDone := "Password has been reset successfully. You can now login."
  const MsgResetFailed := "Failed to reset password."

  /** The checks handleResetPassword makes before any request: the mismatch first, then the length in UTF-16 units. */
  function ResetPrecheck(newPassword: string, confirmPassword: string): (r: Option<string>)
    ensures r == Some(MsgMismatch) <==> newPassword != confirmPassword
    ensures r == Some(MsgTooShort) <==> newPassword == confirmPassword && JsLength(newPassword) < 6
    ensures r == None <==> newPassword == confirmPassword && JsLength(newPassword) >= 6
  {
    if newPassword != confirmPassword then Some(MsgMismatch)
    else if JsLength(newPassword) < 6 then Some(MsgTooShort)
    else None
  }

  /** Three emoji are six UTF-16 units, so three characters pass the length check. */
  lemma ThreeEmojiPassReset(p: string)
    requires p == ['\U{1F600}', '\U{1F600}', '\U{1F600}']
    ensures ResetPrecheck(p, p) == None
  {
    var c := p[0];
    JsLengthCons(c, []);
    JsLengthCons(c, [c]);
    JsLengthCons(c, [c, c]);
    assert p == [c] + [c, c];
  }

  /** The body of the reset request. */
  datatype ResetRequest = ResetRequest(token: string, password: string)

  /** How authService.resetPassword settled: its message field (possibly empty), or a thrown Error's message. */
  datatype ResetReply = ResetDone(message: string) | ResetFailed(message: string)

  /** `x || fallback` on a string. */
  function OrDefault(x: string, fallback: string): string { if x == [] then fallback else x }

  // ---------------------------------------------------------------- the page

  class Page {
    var username: string
    var useRandomUsername: bool
    var rememberMe: bool
    var loginRememberMe: bool
    var resetToken: string
    var newPassword: string
    var confirmPassword: string
    var showResetPassword: bool
    var error: string
    var success: string
    var isLoading: bool
    var local: map<S.Key, string>

    /** Random mode is on only while the username matches the pattern. */
    predicate Valid()
      reads this
    {
      useRandomUsername ==> RandomPattern(username)
    }

    constructor(local: map<S.Key, string>)
      ensures this.local == local && Valid()
      ensures username == [] && !useRandomUsername && !rememberMe && !loginRememberMe
      ensures resetToken == [] && newPassword == [] && confirmPassword == [] && !showResetPassword
      ensures error == [] && success == [] && !isLoading
    {
      username := [];
      useRandomUsername := false;
      rememberMe := false;
      loginRememberMe := false;
      resetToken := [];
      newPassword := [];
      confirmPassword := [];
      showResetPassword := false;
      error := [];
      success := [];
      isLoading := false;
      this.local := local;
    }

    /** The random-username box: ticking it fills in a generated name, clearing it empties the username. */
    method ToggleRandom(checked: bool, d: Draw)
      requires InRange(d)
      modifies this
      ensures useRandomUsername == checked
      ensures checked ==> username == GenerateUsername(d)
      ensures !checked ==> username == []
      ensures Valid()
      ensures rememberMe == old(rememberMe) && local == old(local) && error == old(error)
    {
      useRandomUsername := checked;
      if checked {
        GeneratedMatchesPattern(d);
        username := GenerateUsername(d);
      } else {
        username := [];
      }
    }

    /** The Regenerate button, shown while random mode is on: a fresh generated name. */
    method Regenerate(d: Draw)
      requires InRange(d)
      modifies this
      ensures username == GenerateUsername(d) && useRandomUsername == old(useRandomUsername)
      ensures Valid()
      ensures rememberMe == old(rememberMe) && local == old(local) && error == old(error)
    {
      GeneratedMatchesPattern(d);
      username := GenerateUsername(d);
    }

    /** Typing in the username field: a value that no longer matches the pattern turns random mode off. */
    method EditUsername(value: string)
      modifies this
      ensures username == value
      ensures useRandomUsername <==> old(useRandomUsername) && RandomPattern(value)
      ensures Valid()
      ensures rememberMe == old(rememberMe) && local == old(local) && error == old(error)
    {
      username := value;
      if useRandomUsername && !RandomPattern(value) {
        useRandomUsername := false;
      }
    }

    /** The shared try/catch/finally of handleSignup and handleLogin. */
    method Settle(reply: AuthReply, remember: bool) returns (signedIn: Option<Response>)
      modifies this
      ensures var o := SettleAuth(old(local), reply, remember);
              local == o.local && error == o.error && signedIn == o.signedIn
      ensures success == [] && !isLoading
      ensures username == old(username) && useRandomUsername == old(useRandomUsername)
      ensures rememberMe == old(rememberMe) && loginRememberMe == old(loginRememberMe)
      ensures resetToken == old(resetToken) && newPassword == old(newPassword)
      ensures confirmPassword == old(confirmPassword) && showResetPassword == old(showResetPassword)
    {
      error := [];
      success := [];
      isLoading := true;
      var o := SettleAuth(local, reply, remember);
      local := o.local;
      error := o.error;
      signedIn := o.signedIn;
      isLoading := false;
    }

    /**
     * handleSignup: the random-mode flag sent is shouldUseRandom, which on a
     * page whose invariant holds is the box itself; remember_me follows the
     * signup box.
     */
    method Signup(reply: AuthReply) returns (useRandom: bool, signedIn: Option<Response>)
      modifies this
      ensures useRandom == ShouldUseRandom(old(useRandomUsername), old(username))
      ensures old(Valid()) ==> useRandom == old(useRandomUsername)
      ensures var o := SettleAuth(old(local), reply, old(rememberMe));
              local == o.local && error == o.error && signedIn == o.signedIn
      ensures success == [] && !isLoading
      ensures username == old(username) && useRandomUsername == old(useRandomUsername)
      ensures rememberMe == old(rememberMe) && loginRememberMe == old(loginRememberMe)
    {
      useRandom := ShouldUseRandom(useRandomUsername, username);
      signedIn := Settle(reply, rememberMe);
    }

    /** handleLogin: remember_me follows the login box. */
    method Login(reply: AuthReply) returns (signedIn: Option<Response>)
      modifies this
      ensures var o := SettleAuth(old(local), reply, old(loginRememberMe));
              local == o.local && error == o.error && signedIn == o.signedIn
      ensures success == [] && !isLoading
      ensures username == old(username) && useRandomUsername == old(useRandomUsername)
      ensures rememberMe == old(rememberMe) && loginRememberMe == old(loginRememberMe)
    {
      signedIn := Settle(reply, loginRememberMe);
    }

    /**
     * handleResetPassword: a failed pre-check only shows its message and
     * sends nothing; otherwise the token and the confirmed password are sent,
     * and a success hides the form and clears its three fields.
     */
    method ResetPassword(reply: ResetReply) returns (request: Option<ResetRequest>)
      modifies this
      ensures var check := ResetPrecheck(old(newPassword), old(confirmPassword));
              (request.None? <==> check.Some?)
              && (check.Some? ==> error == check.value && isLoading == old(isLoading)
                                  && resetToken == old(resetToken) && newPassword == old(newPassword)
                                  && confirmPassword == old(confirmPassword)
                                  && showResetPassword == old(showResetPassword))
      ensures request.Some? ==>
                request.value == ResetRequest(old(resetToken), old(newPassword))
                && request.value.password == old(confirmPassword) && JsLength(request.value.password) >= 6 && !isLoading
      ensures request.Some? && reply.ResetDone? ==>
                success == OrDefault(reply.message, MsgResetDone) && error == [] && !showResetPassword
                && resetToken == [] && newPassword == [] && confirmPassword == []
      ensures request.Some? && reply.ResetFailed? ==>
                error == OrDefault(reply.message, MsgResetFailed) && success == []
                && showResetPassword == old(showResetPassword) && resetToken == old(resetToken)
                && newPassword == old(newPassword) && confirmPassword == old(confirmPassword)
      ensures request.None? ==> success == []
      ensures username == old(username) && useRandomUsername == old(useRandomUsername) && local == old(local)
    {
      error := [];
      success := [];
      var check := ResetPrecheck(newPassword, confirmPassword);
      if check.Some? {
        error := check.value;
        return None;
      }
      var sent := SendReset(reply);
      request := Some(sent);
    }

    /** The request of handleResetPassword once the pre-check passed, and how its reply settles. */
    method SendReset(reply: ResetReply) returns (request: ResetRequest)
      modifies this
      ensures request == ResetRequest(old(resetToken), old(newPassword)) && !isLoading
      ensures reply.ResetDone? ==>
                success == OrDefault(reply.message, MsgResetDone) && error == old(error) && !showResetPassword
                && resetToken == [] && newPassword == [] && confirmPassword == []
      ensures reply.ResetFailed? ==>
                error == OrDefault(reply.message, MsgResetFailed) && success == old(success)
                && showResetPassword == old(showResetPassword) && resetToken == old(resetToken)
                && newPassword == old(newPassword) && confirmPassword == old(confirmPassword)
      ensures username == old(username) && useRandomUsername == old(useRandomUsername) && local == old(local)
    {
      isLoading := true;
      request := ResetRequest(resetToken, newPassword);
      match reply {
        case ResetDone(m) =>
          success := OrDefault(m, MsgResetDone);
          showResetPassword := false;
          resetToken := [];
          newPassword := [];
          confirmPassword := [];
        case ResetFailed(m) =>
          error := OrDefault(m, MsgResetFailed);
      }
      isLoading := false;
    }

    /** resetForm: every field back to empty and every box unticked; localStorage is kept. */
    method ResetForm()
      modifies this
      ensures username == [] && !useRandomUsername && !rememberMe && !loginRememberMe
      ensures resetToken == [] && newPassword == [] && confirmPassword == []
      ensures error == [] && success == [] && Valid()
      ensures local == old(local) && isLoading == old(isLoading) && showResetPassword == old(showResetPassword)
    {
      error := [];
      success := [];
      username := [];
      useRandomUsername := false;
      rememberMe := false;
      loginRememberMe := false;
      resetToken := [];
      newPassword := [];
      confirmPassword := [];
    }
  }
}
