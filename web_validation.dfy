/**
 * The web client's validators (frontend/src/utils/validation.js), written to
 * match the backend's. Each returns { isValid, error } and stops at the first
 * failing check.
 */
module WebValidation {
  import opened Wrappers
  import opened Text
  import SU = SecurityUtils

  /** The { isValid, error } object; error is null when valid. */
  datatype FieldResult = FieldResult(isValid: bool, error: Option<string>)

  function Valid(): FieldResult { FieldResult(true, None) }
  function Invalid(msg: string): FieldResult { FieldResult(false, Some(msg)) }

  predicate WellFormed(r: FieldResult) {
    (r.isValid <==> r.error == None) && (r.error.Some? ==> |r.error.value| > 0)
  }

  /** The class [a-zA-Z\s'-] with JavaScript's \s. */
  predicate IsNameChar(c: char) { IsLetter(c) || IsJsSpace(c) || c == '\'' || c == '-' }

  function ValidatePassword(password: JsArg): (r: FieldResult)
    ensures WellFormed(r)
    ensures JsMissing(password) ==> r == Invalid(SU.MsgPasswordRequired)
  {
    if JsMissing(password) then Invalid(SU.MsgPasswordRequired)
    else
      var p := password.s;
      if JsLength(p) < 8 then Invalid(SU.MsgPasswordShort)
      else if JsLength(p) > 128 then Invalid(SU.MsgPasswordLong)
      else if !Exists(p, IsUpper) then Invalid(SU.MsgPasswordUpper)
      else if !Exists(p, IsLower) then Invalid(SU.MsgPasswordLower)
      else if !Exists(p, IsDigit) then Invalid(SU.MsgPasswordDigit)
      else if !Exists(p, SU.IsSpecial) then Invalid(SU.MsgPasswordSpecial)
      else if ToLower(p) in SU.CommonPasswords then Invalid(SU.MsgPasswordCommon)
      else Valid()
  }

  function ValidateEmail(email: JsArg): (r: FieldResult)
    ensures WellFormed(r)
    ensures JsMissing(email) ==> r == Invalid(SU.MsgEmailRequired)
  {
    if JsMissing(email) then Invalid(SU.MsgEmailRequired)
    else
      var t := JsTrim(email.s);
      if JsLength(t) > 255 then Invalid(SU.MsgEmailLong)
      else if !SU.MatchesEmail(t) then Invalid(SU.MsgEmailInvalid)
      else Valid()
  }

  function ValidateUsername(username: JsArg): (r: FieldResult)
    ensures WellFormed(r)
    ensures JsMissing(username) ==> r == Invalid(SU.MsgUsernameRequired)
  {
    if JsMissing(username) then Invalid(SU.MsgUsernameRequired)
    else
      var t := JsTrim(username.s);
      if JsLength(t) < 3 then Invalid(SU.MsgUsernameShort)
      else if JsLength(t) > 30 then Invalid(SU.MsgUsernameLong)
      else if !SU.UsernamePattern(t) then Invalid(SU.MsgUsernameChars)
      else Valid()
  }

  /** validateName(name, fieldName); the default field name is 'Name'. */
  function ValidateName(name: JsArg, field: string): (r: FieldResult)
    ensures WellFormed(r)
    ensures JsMissing(name) ==> r == Invalid(SU.NameRequired(field))
  {
    if JsMissing(name) then Invalid(SU.NameRequired(field))
    else
      var t := JsTrim(name.s);
      if JsLength(t) < 1 then Invalid(SU.NameEmpty(field))
      else if JsLength(t) > 50 then Invalid(SU.NameLong(field))
      else if !(|t| > 0 && All(t, IsNameChar)) then Invalid(SU.NameChars(field))
      else Valid()
  }

  // ---------------------------------------------------------------- agreement with the backend

  /** The backend's answer as the web client's result object. */
  function FromBackend(o: SU.Outcome): FieldResult { FieldResult(o.ok, o.error) }

  /** The same argument as the backend receives it. */
  function ToPy(v: JsArg): SU.PyValue {
    match v
    case Absent => SU.PyNone
    case JsStr(s) => SU.PyStr(s)
    case NonString => SU.PyOther("")
  }

  /**
   * Without astral characters, where JavaScript's length counts characters as
   * Python's len does, the password check gives the backend's verdict and message.
   */
  lemma PasswordAgrees(v: JsArg)
    requires v.JsStr? ==> NoAstral(v.s)
    ensures ValidatePassword(v) == FromBackend(SU.ValidatePasswordStrength(ToPy(v)))
  {
    if v.JsStr? {
      JsLengthIsCount(v.s);
    }
  }

  /**
   * With an astral character the two sides part ways: the emoji below is two
   * UTF-16 units, so the seven-character password is long enough for the web
   * client and too short for the backend.
   */
  lemma PasswordDivergesOnAstral(s: string)
    requires s == ['\U{1F600}', 'A', 'a', '1', '!', 'x', 'y']
    ensures ValidatePassword(JsStr(s)).isValid
    ensures SU.ValidatePasswordStrength(SU.PyStr(s)) == SU.Fail(SU.MsgPasswordShort)
  {
    WebAcceptsEmojiPassword(s);
  }

  lemma WebAcceptsEmojiPassword(s: string)
    requires s == ['\U{1F600}', 'A', 'a', '1', '!', 'x', 'y']
    ensures ValidatePassword(JsStr(s)).isValid
  {
    AstralHeadLength(s[0], s[1..]);
    assert s == [s[0]] + s[1..];
    assert IsUpper(s[1]) && IsLower(s[2]) && IsDigit(s[3]) && SU.IsSpecial(s[4]);
    WebAcceptsWhen(s);
  }

  /** An astral first character adds two units to the length of the rest. */
  lemma AstralHeadLength(c: char, t: string)
    requires IsAstral(c) && AllPortable(t)
    ensures JsLength([c] + t) == 2 + |t|
  {
    assert ([c] + t)[1..] == t;
    PortableLength(t);
  }

  /** A password of 8 to 128 units with every character class is accepted by the web check. */
  lemma WebAcceptsWhen(p: string)
    requires 8 <= JsLength(p) <= 128
    requires Exists(p, IsUpper) && Exists(p, IsLower) && Exists(p, IsDigit) && Exists(p, SU.IsSpecial)
    ensures ValidatePassword(JsStr(p)).isValid
  {
    WebTooCommonUnreachable(JsStr(p));
  }

  /** The exact-match "too common" check is unreachable in the web client too: the special-character rule runs first. */
  lemma WebTooCommonUnreachable(v: JsArg)
    ensures ValidatePassword(v).error != Some(SU.MsgPasswordCommon)
  {
    if !JsMissing(v) && Exists(v.s, SU.IsSpecial) {
      var p := v.s;
      var i :| 0 <= i < |p| && SU.IsSpecial(p[i]);
      SU.LowerKeepsSpecial(p, i);
      SU.CommonHaveNoSpecial();
      assert Exists(ToLower(p), SU.IsSpecial);
    }
  }

  lemma PortableStripAgrees(s: string)
    requires AllPortable(s)
    ensures JsTrim(s) == PyStrip(s)
    ensures AllPortable(JsTrim(s))
  {
    PortableTrimAgrees(s);
    TrimChars(s, IsJsSpace, IsPortable);
  }

  /** On ASCII input without the separators \x1c-\x1f, the email check gives the backend's verdict and message. */
  lemma EmailAgrees(s: string)
    requires AllPortable(s)
    ensures ValidateEmail(JsStr(s)) == FromBackend(SU.ValidateEmail(SU.PyStr(s)))
  {
    var t := PyStrip(s);
    assert JsTrim(s) == t && AllPortable(t) by { PortableStripAgrees(s); }
    PortableLength(t);
    WebEmailVerdict(s, t);
    BackendEmailVerdict(s, t);
  }

  /** The verdict both sides reach, given the trimmed text and its length as each side counts it. */
  function EmailVerdict(missing: bool, n: nat, t: string): FieldResult {
    if missing then Invalid(SU.MsgEmailRequired)
    else if n > 255 then Invalid(SU.MsgEmailLong)
    else if !SU.MatchesEmail(t) then Invalid(SU.MsgEmailInvalid)
    else Valid()
  }

  lemma WebEmailVerdict(s: string, t: string)
    requires JsTrim(s) == t
    ensures ValidateEmail(JsStr(s)) == EmailVerdict(s == [], JsLength(t), t)
  {}

  lemma BackendEmailVerdict(s: string, t: string)
    requires PyStrip(s) == t
    ensures FromBackend(SU.ValidateEmail(SU.PyStr(s))) == EmailVerdict(s == [], |t|, t)
  {
    SU.StrippedAnchored(s, SU.MatchesEmail);
    var r := SU.ValidateEmail(SU.PyStr(s));
    if s == [] {
      assert r == SU.Fail(SU.MsgEmailRequired);
    } else if |t| > 255 {
      assert r == SU.Fail(SU.MsgEmailLong);
    } else if !SU.MatchesEmail(t) {
      assert r == SU.Fail(SU.MsgEmailInvalid);
    } else {
      assert r == SU.Pass();
    }
  }

  /** On portable input the username check gives the backend's verdict and message. */
  lemma UsernameAgrees(s: string)
    requires AllPortable(s)
    ensures ValidateUsername(JsStr(s)) == FromBackend(SU.ValidateUsername(SU.PyStr(s)))
  {
    var t := PyStrip(s);
    assert JsTrim(s) == t && AllPortable(t) by { PortableStripAgrees(s); }
    PortableLength(t);
    WebUsernameVerdict(s, t);
    BackendUsernameVerdict(s, t);
  }

  /** The verdict both sides reach, given the trimmed text and its length as each side counts it. */
  function UsernameVerdict(missing: bool, n: nat, t: string): FieldResult {
    if missing then Invalid(SU.MsgUsernameRequired)
    else if n < 3 then Invalid(SU.MsgUsernameShort)
    else if n > 30 then Invalid(SU.MsgUsernameLong)
    else if !SU.UsernamePattern(t) then Invalid(SU.MsgUsernameChars)
    else Valid()
  }

  lemma WebUsernameVerdict(s: string, t: string)
    requires JsTrim(s) == t
    ensures ValidateUsername(JsStr(s)) == UsernameVerdict(s == [], JsLength(t), t)
  {}

  lemma BackendUsernameVerdict(s: string, t: string)
    requires PyStrip(s) == t
    ensures FromBackend(SU.ValidateUsername(SU.PyStr(s))) == UsernameVerdict(s == [], |t|, t)
  {
    SU.StrippedAnchored(s, SU.UsernamePattern);
    var r := SU.ValidateUsername(SU.PyStr(s));
    if s == [] {
      assert r == SU.Fail(SU.MsgUsernameRequired);
    } else if |t| < 3 {
      assert r == SU.Fail(SU.MsgUsernameShort);
    } else if |t| > 30 {
      assert r == SU.Fail(SU.MsgUsernameLong);
    } else if !SU.UsernamePattern(t) {
      assert r == SU.Fail(SU.MsgUsernameChars);
    } else {
      assert r == SU.Pass();
    }
  }

  /** On portable input the name check gives the backend's verdict and message. */
  lemma NameAgrees(s: string, field: string)
    requires AllPortable(s)
    ensures ValidateName(JsStr(s), field) == FromBackend(SU.ValidateName(SU.PyStr(s), field))
  {
    var t := PyStrip(s);
    assert JsTrim(s) == t && AllPortable(t) by { PortableStripAgrees(s); }
    PortableLength(t);
    WebNameVerdict(s, t, field);
    BackendNameVerdict(s, t, field);
  }

  /** The verdict both sides reach, given the trimmed text and its length as each side counts it. */
  function NameVerdict(missing: bool, n: nat, t: string, field: string): FieldResult {
    if missing then Invalid(SU.NameRequired(field))
    else if n < 1 then Invalid(SU.NameEmpty(field))
    else if n > 50 then Invalid(SU.NameLong(field))
    else if !(|t| > 0 && All(t, IsNameChar)) then Invalid(SU.NameChars(field))
    else Valid()
  }

  lemma WebNameVerdict(s: string, t: string, field: string)
    requires JsTrim(s) == t
    ensures ValidateName(JsStr(s), field) == NameVerdict(s == [], JsLength(t), t, field)
  {}

  lemma BackendNameVerdict(s: string, t: string, field: string)
    requires PyStrip(s) == t && AllPortable(t)
    ensures FromBackend(SU.ValidateName(SU.PyStr(s), field)) == NameVerdict(s == [], |t|, t, field)
  {
    SU.StrippedAnchored(s, SU.NamePattern);
    NameClassesAgree(t);
    var r := SU.ValidateName(SU.PyStr(s), field);
    if s == [] {
      assert r == SU.Fail(SU.NameRequired(field));
    } else if |t| < 1 {
      assert r == SU.Fail(SU.NameEmpty(field));
    } else if |t| > 50 {
      assert r == SU.Fail(SU.NameLong(field));
    } else if !SU.NamePattern(t) {
      assert r == SU.Fail(SU.NameChars(field));
    } else {
      assert r == SU.Pass();
    }
  }

  /** On portable text the two name classes coincide. */
  lemma NameClassesAgree(t: string)
    requires AllPortable(t)
    ensures SU.NamePattern(t) == (|t| > 0 && All(t, IsNameChar))
  {
    forall k | 0 <= k < |t| ensures IsNameChar(t[k]) == SU.IsNameChar(t[k]) {
      PortableSpaceAgrees(t[k]);
    }
  }

  /**
   * Outside portable input the two sides part ways: Python strips the
   * information separator \x1c, JavaScript keeps it.
   */
  lemma UsernameDivergesOnSeparator(s: string)
    requires s == [0x1C as char, 'a', 'b', 'c']
    ensures SU.ValidateUsername(SU.PyStr(s)).ok
    ensures !ValidateUsername(JsStr(s)).isValid
  {
    BackendStripsSeparator(s);
    WebKeepsSeparator(s);
  }

  lemma BackendStripsSeparator(s: string)
    requires s == [0x1C as char, 'a', 'b', 'c']
    ensures SU.ValidateUsername(SU.PyStr(s)).ok
  {
    SeparatorStripped(s);
    BackendUsernameVerdict(s, s[1..]);
  }

  lemma SeparatorStripped(s: string)
    requires s == [0x1C as char, 'a', 'b', 'c']
    ensures PyStrip(s) == s[1..] && |s[1..]| == 3 && SU.UsernamePattern(s[1..])
  {
    var t := s[1..];
    assert s == [s[0]] + t;
    StripsLeadingSpace(s[0], t);
    assert SU.IsUsernameChar(t[0]) && SU.IsUsernameChar(t[1]) && SU.IsUsernameChar(t[2]);
  }

  lemma StripsLeadingSpace(c: char, t: string)
    requires IsPySpace(c) && t != [] && !IsPySpace(t[0]) && !IsPySpace(t[|t| - 1])
    ensures PyStrip([c] + t) == t
  {
    TrimDropsHead(c, t, IsPySpace);
    TrimUntouched(t, IsPySpace);
  }

  lemma WebKeepsSeparator(s: string)
    requires s == [0x1C as char, 'a', 'b', 'c']
    ensures !ValidateUsername(JsStr(s)).isValid
  {
    TrimUntouched(s, IsJsSpace);
    assert !SU.IsUsernameChar(s[0]);
  }
}
