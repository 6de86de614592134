/**
 * The mobile client's validators and sanitisers
 * (baby-sleep-native-fixed/src/utils/validation.ts). Unlike the web client,
 * its password check collects every failing rule and grades the strength.
 */
module NativeValidation {
  import opened Wrappers
  import opened Text
  import SU = SecurityUtils
  import W = WebValidation

  // ---------------------------------------------------------------- sanitizeString

  /** The class [\x00-\x08\x0B-\x0C\x0E-\x1F\x7F] removed by the sanitiser; tab, LF and CR are kept. */
  predicate IsControl(c: char) {
    var n := c as int;
    (0 <= n <= 8) || n == 11 || n == 12 || (14 <= n <= 31) || n == 127
  }

  predicate IsNotControl(c: char) { !IsControl(c) }

  /** `s.length > max ? s.substring(0, max) : s`; substring treats a negative end as 0. */
  function Truncate(s: string, maxLength: int): (r: string)
    ensures |r| == if |s| <= maxLength then |s| else if maxLength < 0 then 0 else maxLength
    ensures r == s[..|r|]
  {
    if |s| > maxLength then s[..if maxLength < 0 then 0 else maxLength] else s
  }

  /** What sanitizeString(input, maxLength) returns. */
  function Sanitized(input: JsArg, maxLength: int): (r: string)
    ensures JsMissing(input) ==> r == []
    ensures maxLength >= 0 ==> |r| <= maxLength
    ensures All(r, IsNotControl)
  {
    if JsMissing(input) then [] else Filter(Truncate(JsTrim(input.s), maxLength), IsNotControl)
  }

  /** sanitizeString: trim, then cut to maxLength, then drop control characters. */
  method SanitizeString(input: JsArg, maxLength: int) returns (sanitized: string)
    ensures sanitized == Sanitized(input, maxLength)
  {
    if JsMissing(input) {
      return [];
    }
    sanitized := JsTrim(input.s);
    if |sanitized| > maxLength {
      sanitized := sanitized[..if maxLength < 0 then 0 else maxLength];
    }
    sanitized := Filter(sanitized, IsNotControl);
  }

  /** The output keeps the order of the trimmed, truncated text and of the input itself. */
  lemma SanitizedIsSubsequence(s: string, maxLength: int)
    requires s != []
    ensures IsSubsequence(Sanitized(JsStr(s), maxLength), Truncate(JsTrim(s), maxLength))
    ensures IsSubsequence(Sanitized(JsStr(s), maxLength), s)
  {
    var u := Truncate(JsTrim(s), maxLength);
    FilterIsSubsequence(u, IsNotControl);
    TruncatedTrimIsSubsequence(s, maxLength);
    SubsequenceTransitive(Sanitized(JsStr(s), maxLength), u, s);
  }

  lemma TruncatedTrimIsSubsequence(s: string, maxLength: int)
    ensures IsSubsequence(Truncate(JsTrim(s), maxLength), s)
  {
    var t := JsTrim(s);
    var u := Truncate(t, maxLength);
    TrimIsSubsequence(s, IsJsSpace);
    InfixIsSubsequence(t, 0, |u|);
    assert t[0..|u|] == u;
    SubsequenceTransitive(u, t, s);
  }

  /** Only control characters are removed: text without them is just trimmed and truncated. */
  lemma SanitizedRemovesOnlyControl(s: string, maxLength: int)
    requires s != []
    requires All(Truncate(JsTrim(s), maxLength), IsNotControl)
    ensures Sanitized(JsStr(s), maxLength) == Truncate(JsTrim(s), maxLength)
  {
    FilterAllKept(Truncate(JsTrim(s), maxLength), IsNotControl);
  }

  /**
   * Trimming happens before control characters are removed, so a control
   * character can shield whitespace that a second pass then trims:
   * "\x01 a" becomes " a", and " a" becomes "a".
   */
  lemma SanitizeNotIdempotent(s: string)
    requires s == [1 as char, ' ', 'a']
    ensures Sanitized(JsStr(s), 10000) == s[1..]
    ensures Sanitized(JsStr(s[1..]), 10000) == s[2..]
    ensures s[1..] != s[2..]
  {
    SanitizeFirstPass(s);
    SanitizeSecondPass(s[1..]);
  }

  lemma SanitizeFirstPass(s: string)
    requires s == [1 as char, ' ', 'a']
    ensures Sanitized(JsStr(s), 10000) == s[1..]
  {
    TrimUntouched(s, IsJsSpace);
    assert Filter(s, IsNotControl) == Filter(s[1..], IsNotControl);
    FilterAllKept(s[1..], IsNotControl);
  }

  lemma SanitizeSecondPass(s: string)
    requires s == [' ', 'a']
    ensures Sanitized(JsStr(s), 10000) == s[1..]
  {
    assert s == [s[0]] + s[1..];
    TrimDropsHead(s[0], s[1..], IsJsSpace);
    TrimUntouched(s[1..], IsJsSpace);
    FilterAllKept(s[1..], IsNotControl);
  }

  /** sanitizeMessage: the sanitiser with a 5000-character cap. */
  method SanitizeMessage(message: JsArg) returns (r: string)
    ensures r == Sanitized(message, 5000) && |r| <= 5000
  {
    r := SanitizeString(message, 5000);
  }

  /** sanitizePostContent: the sanitiser with a 10000-character cap. */
  method SanitizePostContent(content: JsArg) returns (r: string)
    ensures r == Sanitized(content, 10000) && |r| <= 10000
  {
    r := SanitizeString(content, 10000);
  }

  // ---------------------------------------------------------------- sanitizeUsername

  /** sanitizeUsername: trim, then drop every character outside [a-zA-Z0-9_-]. */
  function SanitizeUsername(username: JsArg): (r: string)
    ensures All(r, SU.IsUsernameChar)
    ensures JsMissing(username) ==> r == []
  {
    if JsMissing(username) then [] else Filter(JsTrim(username.s), SU.IsUsernameChar)
  }

  lemma SanitizeUsernameIsSubsequence(s: string)
    ensures IsSubsequence(SanitizeUsername(JsStr(s)), JsTrim(s))
  {
    if s != [] {
      FilterIsSubsequence(JsTrim(s), SU.IsUsernameChar);
    }
  }

  /** Sanitising a sanitised username changes nothing. */
  lemma SanitizeUsernameIdempotent(v: JsArg)
    ensures SanitizeUsername(JsStr(SanitizeUsername(v))) == SanitizeUsername(v)
  {
    var r := SanitizeUsername(v);
    if r != [] {
      UsernameCharsUntrimmed(r);
      FilterAllKept(r, SU.IsUsernameChar);
    }
  }

  /** Username characters are never whitespace, so trimming leaves them alone. */
  lemma UsernameCharsUntrimmed(r: string)
    requires r != [] && All(r, SU.IsUsernameChar)
    ensures JsTrim(r) == r
  {
    assert SU.IsUsernameChar(r[0]) && SU.IsUsernameChar(r[|r| - 1]);
    TrimUntouched(r, IsJsSpace);
  }

  // ---------------------------------------------------------------- isValidEmail

  predicate IsLooseEmailChar(c: char) { !IsJsSpace(c) && c != '@' }

  /** s = x '@' y '.' z with x, y, z non-empty and free of whitespace and '@'. */
  predicate LooseEmailSplitAt(s: string, i: int, j: int) {
    0 < i && i + 1 < j && j + 1 < |s| && s[i] == '@' && s[j] == '.'
    && All(s[..i], IsLooseEmailChar) && All(s[i + 1..j], IsLooseEmailChar)
    && All(s[j + 1..], IsLooseEmailChar)
  }

  /** ^[^\s@]+@[^\s@]+\.[^\s@]+$ as an explicit split. */
  ghost predicate LooseEmailShape(s: string) { exists i, j :: LooseEmailSplitAt(s, i, j) }

  predicate IsNotJsSpace(c: char) { !IsJsSpace(c) }

  /** The computable form of LooseEmailShape. */
  predicate LooseEmailMatches(s: string) {
    match IndexOf(s, '@')
    case None => false
    case Some(i) =>
      0 < i && i + 2 < |s| && All(s, IsNotJsSpace) && '@' !in s[i + 1..] && '.' in s[i + 2..|s| - 1]
  }

  lemma LooseEmailMatchesIff(s: string)
    ensures LooseEmailMatches(s) <==> LooseEmailShape(s)
  {
    if LooseEmailMatches(s) {
      LooseEmailFound(s);
    }
    if LooseEmailShape(s) {
      var i, j :| LooseEmailSplitAt(s, i, j);
      LooseEmailSplitMatches(s, i, j);
    }
  }

  /** The first '@' and a '.' after it give a split of the pattern. */
  lemma LooseEmailFound(s: string)
    requires LooseEmailMatches(s)
    ensures LooseEmailShape(s)
  {
    var i := IndexOf(s, '@').value;
    var d := IndexOf(s[i + 2..|s| - 1], '.').value;
    var j := i + 2 + d;
    assert s[j] == '.';
    assert All(s[..i], IsLooseEmailChar) by {
      assert forall k :: 0 <= k < i ==> s[..i][k] == s[k] && s[k] != '@';
    }
    assert All(s[i + 1..j], IsLooseEmailChar) && All(s[j + 1..], IsLooseEmailChar) by {
      assert forall k :: i + 1 <= k < |s| ==> s[k] == s[i + 1..][k - i - 1];
    }
    assert LooseEmailSplitAt(s, i, j);
  }

  /** Any split of the pattern is found by the computable test. */
  lemma LooseEmailSplitMatches(s: string, i: int, j: int)
    requires LooseEmailSplitAt(s, i, j)
    ensures LooseEmailMatches(s)
  {
    assert IndexOf(s, '@') == Some(i) by {
      assert forall k :: 0 <= k < i ==> s[k] == s[..i][k];
      IndexOfIs(s, '@', i);
    }
    assert All(s, IsNotJsSpace) && '@' !in s[i + 1..] by {
      assert forall k :: 0 <= k < i ==> s[k] == s[..i][k];
      assert forall k :: i < k < j ==> s[k] == s[i + 1..j][k - i - 1];
      assert forall k :: j < k < |s| ==> s[k] == s[j + 1..][k - j - 1];
      assert forall k :: i + 1 <= k < |s| ==> s[i + 1..][k - i - 1] == s[k];
    }
    assert s[i + 2..|s| - 1][j - i - 2] == '.';
  }

  /** isValidEmail: the loose pattern on the trimmed input. */
  function IsValidEmail(email: JsArg): (r: bool)
    ensures JsMissing(email) ==> !r
  {
    if JsMissing(email) then false else LooseEmailMatches(JsTrim(email.s))
  }

  /** Every address of the backend's stricter form passes the loose pattern. */
  lemma StrictEmailIsLoose(s: string)
    requires SU.EmailShape(s)
    ensures LooseEmailShape(s)
  {
    var i, j :| SU.EmailSplitAt(s, i, j);
    assert forall k :: 0 <= k < i ==> SU.IsEmailLocalChar(s[..i][k]);
    assert LooseEmailSplitAt(s, i, j);
  }

  // ---------------------------------------------------------------- validatePassword

  datatype Strength = Weak | Medium | Strong

  /** The { isValid, errors, strength } result. */
  datatype PasswordReport = PasswordReport(isValid: bool, errors: seq<string>, strength: Strength)

  const CommonPasswords: seq<string> := ["password", "12345678", "qwerty", "abc123", "password123"]
  const MsgPasswordSpecial := "Password must contain at least one special character"

  /** The lower-cased password contains one of the listed words anywhere. */
  predicate ContainsCommon(p: string) { ContainsAny(ToLower(p), CommonPasswords) }

  /** `words.some(w => s.includes(w))`. */
  predicate ContainsAny(s: string, words: seq<string>)
    decreases |words|
  {
    |words| > 0 && (Contains(s, words[0]) || ContainsAny(s, words[1..]))
  }

  /** The rules in the order their messages are pushed; there is no upper length bound. */
  function PasswordRules(): seq<SU.Rule> {
    [ SU.Rule(p => JsLength(p) >= 8, SU.MsgPasswordShort),
      SU.Rule(p => Exists(p, IsUpper), SU.MsgPasswordUpper),
      SU.Rule(p => Exists(p, IsLower), SU.MsgPasswordLower),
      SU.Rule(p => Exists(p, IsDigit), SU.MsgPasswordDigit),
      SU.Rule(p => Exists(p, SU.IsSpecial), MsgPasswordSpecial),
      SU.Rule(p => !ContainsCommon(p), SU.MsgPasswordCommon) ]
  }

  /** The error list validatePassword reports; no message in it is empty. */
  function PasswordErrors(password: JsArg): (errors: seq<string>)
    ensures forall k :: 0 <= k < |errors| ==> errors[k] != []
  {
    if JsMissing(password) then [SU.MsgPasswordRequired]
    else
      PasswordFailuresNonEmpty(password.s);
      SU.Failures(PasswordRules(), password.s)
  }

  lemma PasswordFailuresNonEmpty(p: string)
    ensures var e := SU.Failures(PasswordRules(), p); forall k :: 0 <= k < |e| ==> e[k] != []
  {
    var rs := PasswordRules();
    SU.FailureMessagesFrom(rs, 0, p);
    var e := SU.Failures(rs, p);
    assert forall k :: 0 <= k < |e| ==> e[k] in e;
    forall j | 0 <= j < |rs| ensures rs[j].message != [] {
      assert |rs[j].message| > 0;
    }
  }

  /**
   * validatePassword: every failing rule's message in rule order; valid
   * exactly when none fails; strength weak on any failure, otherwise strong
   * from 12 UTF-16 units on and medium below.
   */
  method ValidatePassword(password: JsArg) returns (res: PasswordReport)
    ensures JsMissing(password) ==> res == PasswordReport(false, [SU.MsgPasswordRequired], Weak)
    ensures !JsMissing(password) ==> res.errors == SU.Failures(PasswordRules(), password.s)
    ensures res.errors == PasswordErrors(password)
    ensures res.isValid <==> res.errors == []
    ensures res.strength == if !res.isValid then Weak else if JsLength(password.s) >= 12 then Strong else Medium
  {
    if JsMissing(password) {
      return PasswordReport(false, [SU.MsgPasswordRequired], Weak);
    }
    var p := password.s;
    var errors := CollectErrors(p);
    var strength := Weak;
    if |errors| == 0 {
      if JsLength(p) >= 12 && Exists(p, IsUpper) && Exists(p, IsLower) && Exists(p, IsDigit) && Exists(p, SU.IsSpecial) {
        strength := Strong;
      } else {
        strength := Medium;
      }
    }
    res := PasswordReport(|errors| == 0, errors, strength);
  }

  /** The successive pushes of validatePassword: the message of every failing rule, in rule order. */
  method CollectErrors(p: string) returns (errors: seq<string>)
    ensures errors == SU.Failures(PasswordRules(), p)
  {
    errors := CollectLengthAndCase(p);
    errors := CollectDigitSpecialCommon(p, errors);
  }

  /** The first three pushes: length, upper case, lower case. */
  method CollectLengthAndCase(p: string) returns (errors: seq<string>)
    ensures errors + SU.FailuresFrom(PasswordRules(), 3, p) == SU.Failures(PasswordRules(), p)
  {
    ghost var rs := PasswordRules();
    RuleMeaning(p);
    errors := [];
    ghost var before := errors;
    var n := JsLength(p);
    if n < 8 {
      errors := errors + [SU.MsgPasswordShort];
    }
    PushStep(rs, 0, p, before, n < 8, errors);
    before := errors;
    if !Exists(p, IsUpper) {
      errors := errors + [SU.MsgPasswordUpper];
    }
    PushStep(rs, 1, p, before, !Exists(p, IsUpper), errors);
    before := errors;
    if !Exists(p, IsLower) {
      errors := errors + [SU.MsgPasswordLower];
    }
    PushStep(rs, 2, p, before, !Exists(p, IsLower), errors);
  }

  /** The last three pushes: digit, special character, common word. */
  method CollectDigitSpecialCommon(p: string, pushed: seq<string>) returns (errors: seq<string>)
    requires pushed + SU.FailuresFrom(PasswordRules(), 3, p) == SU.Failures(PasswordRules(), p)
    ensures errors == SU.Failures(PasswordRules(), p)
  {
    ghost var rs := PasswordRules();
    RuleMeaning(p);
    errors := pushed;
    ghost var before := errors;
    if !Exists(p, IsDigit) {
      errors := errors + [SU.MsgPasswordDigit];
    }
    PushStep(rs, 3, p, before, !Exists(p, IsDigit), errors);
    before := errors;
    if !Exists(p, SU.IsSpecial) {
      errors := errors + [MsgPasswordSpecial];
    }
    PushStep(rs, 4, p, before, !Exists(p, SU.IsSpecial), errors);
    before := errors;
    if ContainsCommon(p) {
      errors := errors + [SU.MsgPasswordCommon];
    }
    PushStep(rs, 5, p, before, ContainsCommon(p), errors);
  }

  lemma RuleMeaning(p: string)
    ensures |PasswordRules()| == 6
    ensures PasswordRules()[0].message == SU.MsgPasswordShort
    ensures PasswordRules()[0].holds(p) == (JsLength(p) >= 8)
    ensures PasswordRules()[1].message == SU.MsgPasswordUpper
    ensures PasswordRules()[1].holds(p) == Exists(p, IsUpper)
    ensures PasswordRules()[2].message == SU.MsgPasswordLower
    ensures PasswordRules()[2].holds(p) == Exists(p, IsLower)
    ensures PasswordRules()[3].message == SU.MsgPasswordDigit
    ensures PasswordRules()[3].holds(p) == Exists(p, IsDigit)
    ensures PasswordRules()[4].message == MsgPasswordSpecial
    ensures PasswordRules()[4].holds(p) == Exists(p, SU.IsSpecial)
    ensures PasswordRules()[5].message == SU.MsgPasswordCommon
    ensures PasswordRules()[5].holds(p) == !ContainsCommon(p)
  {}

  /** One push of validatePassword keeps the pushed messages a prefix of the rule failures. */
  lemma PushStep(rs: seq<SU.Rule>, k: nat, p: string, before: seq<string>, fails: bool, after: seq<string>)
    requires k < |rs| && fails == !rs[k].holds(p)
    requires k == 0 ==> before == []
    requires k > 0 ==> before + SU.FailuresFrom(rs, k, p) == SU.Failures(rs, p)
    requires after == if fails then before + [rs[k].message] else before
    ensures after + SU.FailuresFrom(rs, k + 1, p) == SU.Failures(rs, p)
  {
    SU.FailuresStep(rs, k, p);
  }

  /**
   * The substring test rejects passwords the backend accepts:
   * "MyPassword1!" contains "password" once lower-cased.
   */
  lemma SubstringCommonStricter(p: string)
    requires p == ['M', 'y', 'P', 'a', 's', 's', 'w', 'o', 'r', 'd', '1', '!']
    ensures SU.MsgPasswordCommon in SU.Failures(PasswordRules(), p)
    ensures SU.ValidatePasswordStrength(SU.PyStr(p)).ok
  {
    NativeFindsCommon(p);
    BackendAccepts(p);
  }

  lemma NativeFindsCommon(p: string)
    requires p == ['M', 'y', 'P', 'a', 's', 's', 'w', 'o', 'r', 'd', '1', '!']
    ensures SU.MsgPasswordCommon in SU.Failures(PasswordRules(), p)
  {
    var l := ToLower(p);
    assert l[2..10] == CommonPasswords[0];
    ContainsAt(l, CommonPasswords[0], 2);
    var rs := PasswordRules();
    SU.FailuresStep(rs, 5, p);
    SU.FailuresFromIn(rs, 5, p, SU.MsgPasswordCommon);
  }

  lemma BackendAccepts(p: string)
    requires p == ['M', 'y', 'P', 'a', 's', 's', 'w', 'o', 'r', 'd', '1', '!']
    ensures SU.ValidatePasswordStrength(SU.PyStr(p)).ok
  {
    assert IsUpper(p[0]) && IsLower(p[1]) && IsDigit(p[10]) && SU.IsSpecial(p[11]);
    SU.PasswordAcceptedIff(p);
  }

  /** Without an upper bound, passwords over 128 characters pass here and fail at the backend. */
  lemma LongPasswordsDiverge(p: string)
    requires |p| > 128 && SU.Failures(PasswordRules(), p) == []
    ensures !SU.ValidatePasswordStrength(SU.PyStr(p)).ok
  {}

  // ---------------------------------------------------------------- validateUsername / validateName

  /** validateUsername: the backend's bounds 3..30 and class; success carries no error. */
  function ValidateUsername(username: JsArg): (r: W.FieldResult)
    ensures W.WellFormed(r)
  {
    if JsMissing(username) then W.Invalid(SU.MsgUsernameRequired)
    else
      var t := JsTrim(username.s);
      if JsLength(t) < 3 then W.Invalid(SU.MsgUsernameShort)
      else if JsLength(t) > 30 then W.Invalid(SU.MsgUsernameLong)
      else if !(|t| > 0 && All(t, SU.IsUsernameChar)) then W.Invalid(SU.MsgUsernameChars)
      else W.Valid()
  }

  /** validateName(name, fieldName): the backend's bounds 1..50 and class. */
  function ValidateName(name: JsArg, field: string): (r: W.FieldResult)
    ensures W.WellFormed(r)
  {
    if JsMissing(name) then W.Invalid(SU.NameRequired(field))
    else
      var t := JsTrim(name.s);
      if JsLength(t) < 1 then W.Invalid(SU.NameEmpty(field))
      else if JsLength(t) > 50 then W.Invalid(SU.NameLong(field))
      else if !(|t| > 0 && All(t, W.IsNameChar)) then W.Invalid(SU.NameChars(field))
      else W.Valid()
  }

  /** On portable input both checks give the backend's verdict and message. */
  lemma NativeAgreesWithBackend(s: string, field: string)
    requires AllPortable(s)
    ensures ValidateUsername(JsStr(s)) == W.FromBackend(SU.ValidateUsername(SU.PyStr(s)))
    ensures ValidateName(JsStr(s), field) == W.FromBackend(SU.ValidateName(SU.PyStr(s), field))
  {
    NativeUsernameIsWeb(JsStr(s));
    W.UsernameAgrees(s);
    NativeNameIsWeb(JsStr(s), field);
    W.NameAgrees(s, field);
  }

  /** The mobile username check is the web client's, rule for rule. */
  lemma NativeUsernameIsWeb(v: JsArg)
    ensures ValidateUsername(v) == W.ValidateUsername(v)
  {}

  /** The mobile name check is the web client's, rule for rule. */
  lemma NativeNameIsWeb(v: JsArg, field: string)
    ensures ValidateName(v, field) == W.ValidateName(v, field)
  {}
}
