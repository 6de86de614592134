/**
 * The backend's input validators (backend/security_utils.py). Each validator
 * is a chain of checks that returns (is_valid, error_message); the first
 * failing check decides the message.
 */
module SecurityUtils {
  import opened Wrappers
  import opened Text

  const CommonPasswords: seq<string> := [
    "password", "12345678", "qwerty", "abc123", "password123",
    "letmein", "welcome", "monkey", "1234567890", "qwerty123"
  ]

  const MaxUsernameLength := 30
  const MaxEmailLength := 255
  const MaxMessageLength := 5000
  const MaxPostLength := 10000
  const MaxBioLength := 500
  const MaxNameLength := 50

  /** A Python argument: None, a str, or any other object, given by its str(). */
  datatype PyValue = PyNone | PyStr(s: string) | PyOther(repr: string)

  /** The (is_valid, error_message) pair every validator returns. */
  datatype Outcome = Outcome(ok: bool, error: Option<string>)

  function Pass(): Outcome { Outcome(true, None) }
  function Fail(msg: string): Outcome { Outcome(false, Some(msg)) }

  /** Either (True, None) or (False, a non-empty message). */
  predicate WellFormed(r: Outcome) {
    (r.ok <==> r.error == None) && (r.error.Some? ==> |r.error.value| > 0)
  }

  /** `not x or not isinstance(x, str)`: what makes a validator say "... is required". */
  predicate Missing(v: PyValue) { !v.PyStr? || v.s == [] }

  // ---------------------------------------------------------------- classes

  /** The class [!@#$%^&*()_+\-=\[\]{};':"\\|,.<>\/?] of the special-character rule. */
  const SpecialChars := "!@#$%^&*()_+-=[]{};':\"\\|,.<>/?"
  predicate IsSpecial(c: char) { c in SpecialChars }
  predicate IsUsernameChar(c: char) { IsLetter(c) || IsDigit(c) || c == '_' || c == '-' }
  predicate IsNameChar(c: char) { IsLetter(c) || IsPySpace(c) || c == '\'' || c == '-' }
  predicate IsEmailLocalChar(c: char) { IsLetter(c) || IsDigit(c) || c in "._%+-" }
  predicate IsEmailDomainChar(c: char) { IsLetter(c) || IsDigit(c) || c == '.' || c == '-' }

  /**
   * Python's re.match with a pattern of the form ^...$ and no flags: `$`
   * matches at the very end and also just before one final newline.
   */
  predicate PyAnchored(s: string, m: string -> bool) {
    m(s) || (|s| > 0 && s[|s| - 1] == '\n' && m(s[..|s| - 1]))
  }

  /** After strip() the final-newline allowance of `$` never comes into play. */
  lemma StrippedAnchored(s: string, m: string -> bool)
    ensures PyAnchored(PyStrip(s), m) == m(PyStrip(s))
  {
    TrimEndClean(s, IsPySpace);
  }

  // ---------------------------------------------------------------- password

  const MsgPasswordRequired := "Password is required"
  const MsgPasswordShort := "Password must be at least 8 characters long"
  const MsgPasswordLong := "Password must be less than 128 characters"
  const MsgPasswordUpper := "Password must contain at least one uppercase letter"
  const MsgPasswordLower := "Password must contain at least one lowercase letter"
  const MsgPasswordDigit := "Password must contain at least one number"
  const MsgPasswordSpecial := "Password must contain at least one special character (!@#$%^&*()_+-=[]{}|;:,.<>?)"
  const MsgPasswordCommon := "Password is too common. Please choose a more unique password"

  function ValidatePasswordStrength(password: PyValue): (r: Outcome)
    ensures WellFormed(r)
    ensures Missing(password) ==> r == Fail(MsgPasswordRequired)
  {
    if Missing(password) then Fail(MsgPasswordRequired)
    else
      var p := password.s;
      if |p| < 8 then Fail(MsgPasswordShort)
      else if |p| > 128 then Fail(MsgPasswordLong)
      else if !Exists(p, IsUpper) then Fail(MsgPasswordUpper)
      else if !Exists(p, IsLower) then Fail(MsgPasswordLower)
      else if !Exists(p, IsDigit) then Fail(MsgPasswordDigit)
      else if !Exists(p, IsSpecial) then Fail(MsgPasswordSpecial)
      else if ToLower(p) in CommonPasswords then Fail(MsgPasswordCommon)
      else Pass()
  }

  /** A named check with the message reported when it fails. */
  datatype Rule = Rule(holds: string -> bool, message: string)

  /** The backend's password rules, in the order they are tried. */
  function PasswordRules(): seq<Rule> {
    [ Rule(p => |p| >= 8, MsgPasswordShort),
      Rule(p => |p| <= 128, MsgPasswordLong),
      Rule(p => Exists(p, IsUpper), MsgPasswordUpper),
      Rule(p => Exists(p, IsLower), MsgPasswordLower),
      Rule(p => Exists(p, IsDigit), MsgPasswordDigit),
      Rule(p => Exists(p, IsSpecial), MsgPasswordSpecial),
      Rule(p => ToLower(p) !in CommonPasswords, MsgPasswordCommon) ]
  }

  /** The messages of every failing rule, in rule order. */
  function Failures(rules: seq<Rule>, p: string): (msgs: seq<string>)
    ensures |msgs| <= |rules|
  {
    FailuresFrom(rules, 0, p)
  }

  /** The messages of the failing rules from index k on. */
  function FailuresFrom(rules: seq<Rule>, k: nat, p: string): (msgs: seq<string>)
    requires k <= |rules|
    ensures |msgs| <= |rules| - k
    decreases |rules| - k
  {
    if k == |rules| then []
    else if rules[k].holds(p) then FailuresFrom(rules, k + 1, p)
    else [rules[k].message] + FailuresFrom(rules, k + 1, p)
  }

  lemma FailuresStep(rules: seq<Rule>, k: nat, p: string)
    requires k < |rules|
    ensures FailuresFrom(rules, k, p) ==
      (if rules[k].holds(p) then [] else [rules[k].message]) + FailuresFrom(rules, k + 1, p)
  {}

  /** A message reported from index k on is reported by the whole list. */
  lemma {:induction false} FailuresFromIn(rules: seq<Rule>, k: nat, p: string, m: string)
    requires k <= |rules| && m in FailuresFrom(rules, k, p)
    ensures m in Failures(rules, p)
    decreases k
  {
    if k > 0 {
      FailuresStep(rules, k - 1, p);
      FailuresFromIn(rules, k - 1, p, m);
    }
  }

  /** Every reported message is the message of one of the rules tried. */
  lemma {:induction false} FailureMessagesFrom(rules: seq<Rule>, k: nat, p: string)
    requires k <= |rules|
    ensures forall m :: m in FailuresFrom(rules, k, p) ==> exists j :: k <= j < |rules| && rules[j].message == m
    decreases |rules| - k
  {
    if k < |rules| {
      FailureMessagesFrom(rules, k + 1, p);
      FailuresStep(rules, k, p);
    }
  }

  /** Only the first failing rule is reported; with none failing the password is accepted. */
  lemma PasswordFirstFailure(p: string)
    requires p != []
    ensures var r := ValidatePasswordStrength(PyStr(p));
            var f := Failures(PasswordRules(), p);
            (r.ok <==> f == []) && (f != [] ==> r.error == Some(f[0]))
  {
    var rs := PasswordRules();
    assert rs[1..][1..][1..][1..][1..][1..][1..] == [];
  }

  /** Lower-casing keeps every special character where it was. */
  lemma LowerKeepsSpecial(p: string, i: nat)
    requires i < |p| && IsSpecial(p[i])
    ensures IsSpecial(ToLower(p)[i])
  {}

  lemma CommonHaveNoSpecial()
    ensures forall w :: w in CommonPasswords ==> !Exists(w, IsSpecial)
  {
    forall w | w in CommonPasswords ensures !Exists(w, IsSpecial) {
      CommonAreAlphanumeric(w);
      forall i | 0 <= i < |w| ensures !IsSpecial(w[i]) {
        if IsSpecial(w[i]) {
          SpecialIsNotAlphanumeric(w[i]);
        }
      }
    }
  }

  lemma SpecialIsNotAlphanumeric(c: char)
    requires IsSpecial(c)
    ensures !IsLetter(c) && !IsDigit(c)
  {
    var k :| 0 <= k < |SpecialChars| && SpecialChars[k] == c;
  }

  lemma CommonAreAlphanumeric(w: string)
    requires w in CommonPasswords
    ensures forall i :: 0 <= i < |w| ==> IsLetter(w[i]) || IsDigit(w[i])
  {}

  /**
   * The "too common" message can never be returned: a password reaching that
   * check holds a special character, which lower-casing keeps and which no
   * listed password has.
   */
  lemma TooCommonUnreachable(password: PyValue)
    ensures ValidatePasswordStrength(password).error != Some(MsgPasswordCommon)
  {
    if !Missing(password) && Exists(password.s, IsSpecial) {
      var p := password.s;
      var i :| 0 <= i < |p| && IsSpecial(p[i]);
      LowerKeepsSpecial(p, i);
      CommonHaveNoSpecial();
      assert Exists(ToLower(p), IsSpecial);
    }
  }

  /** What an accepted password looks like, and that every such password is accepted. */
  lemma PasswordAcceptedIff(p: string)
    ensures ValidatePasswordStrength(PyStr(p)).ok <==>
      8 <= |p| <= 128 && Exists(p, IsUpper) && Exists(p, IsLower)
      && Exists(p, IsDigit) && Exists(p, IsSpecial)
  {
    TooCommonUnreachable(PyStr(p));
  }

  // ---------------------------------------------------------------- email

  const MsgEmailRequired := "Email is required"
  const MsgEmailLong := "Email must be less than 255 characters"
  const MsgEmailInvalid := "Please enter a valid email address"

  /** s = local '@' domain '.' tld with '@' at i and the final dot at j. */
  predicate EmailSplitAt(s: string, i: int, j: int) {
    0 < i && i + 1 < j && j + 2 < |s| && s[i] == '@' && s[j] == '.'
    && All(s[..i], IsEmailLocalChar) && All(s[i + 1..j], IsEmailDomainChar)
    && All(s[j + 1..], IsLetter)
  }

  /** ^[a-zA-Z0-9._%+-]+@[a-zA-Z0-9.-]+\.[a-zA-Z]{2,} as an explicit split. */
  ghost predicate EmailShape(s: string) { exists i, j :: EmailSplitAt(s, i, j) }

  /** The computable form of EmailShape: the first '@' and the last '.' are the split points. */
  predicate MatchesEmail(s: string) {
    match (IndexOf(s, '@'), LastIndexOf(s, '.'))
    case (Some(i), Some(j)) => EmailSplitAt(s, i, j)
    case _ => false
  }

  lemma MatchesEmailIff(s: string)
    ensures MatchesEmail(s) <==> EmailShape(s)
  {
    if EmailShape(s) {
      var i, j :| EmailSplitAt(s, i, j);
      assert forall k :: 0 <= k < i ==> s[k] == s[..i][k];
      IndexOfIs(s, '@', i);
      assert forall k :: j < k < |s| ==> s[k] == s[j + 1..][k - j - 1];
      LastIndexOfIs(s, '.', j);
    }
  }

  /** Python's re.match of the email pattern, final-newline allowance included. */
  predicate EmailRegex(s: string) { PyAnchored(s, MatchesEmail) }

  function ValidateEmail(email: PyValue): (r: Outcome)
    ensures WellFormed(r)
    ensures Missing(email) ==> r == Fail(MsgEmailRequired)
  {
    if Missing(email) then Fail(MsgEmailRequired)
    else
      var e := PyStrip(email.s);
      if |e| > MaxEmailLength then Fail(MsgEmailLong)
      else if !EmailRegex(e) then Fail(MsgEmailInvalid)
      else Pass()
  }

  /** Accepted exactly when the stripped text has at most 255 characters and the local@domain.tld form. */
  lemma EmailAcceptedIff(s: string)
    ensures ValidateEmail(PyStr(s)).ok <==>
      s != [] && |PyStrip(s)| <= 255 && EmailShape(PyStrip(s))
  {
    var e := PyStrip(s);
    assert ValidateEmail(PyStr(s)).ok == (s != [] && |e| <= MaxEmailLength && EmailRegex(e));
    assert EmailRegex(e) == MatchesEmail(e) by {
      StrippedAnchored(s, MatchesEmail);
    }
    assert MatchesEmail(e) == EmailShape(e) by {
      MatchesEmailIff(e);
    }
  }

  // ---------------------------------------------------------------- username

  const MsgUsernameRequired := "Username is required"
  const MsgUsernameShort := "Username must be at least 3 characters long"
  const MsgUsernameLong := "Username must be less than 30 characters"
  const MsgUsernameChars := "Username can only contain letters, numbers, underscores, and hyphens"

  /** ^[a-zA-Z0-9_-]+ up to the anchor. */
  predicate UsernamePattern(u: string) { |u| > 0 && All(u, IsUsernameChar) }

  function ValidateUsername(username: PyValue): (r: Outcome)
    ensures WellFormed(r)
    ensures Missing(username) ==> r == Fail(MsgUsernameRequired)
  {
    if Missing(username) then Fail(MsgUsernameRequired)
    else
      var u := PyStrip(username.s);
      if |u| < 3 then Fail(MsgUsernameShort)
      else if |u| > MaxUsernameLength then Fail(MsgUsernameLong)
      else if !PyAnchored(u, UsernamePattern) then Fail(MsgUsernameChars)
      else Pass()
  }

  /**
   * Accepted exactly when the stripped text has 3 to 30 characters, all from
   * [A-Za-z0-9_-]; 30 is allowed although the message says "less than 30".
   */
  lemma UsernameAcceptedIff(s: string)
    ensures ValidateUsername(PyStr(s)).ok <==>
      3 <= |PyStrip(s)| <= 30 && All(PyStrip(s), IsUsernameChar)
  {
    StrippedAnchored(s, UsernamePattern);
  }

  // ---------------------------------------------------------------- names

  function NameRequired(field: string): string { field + " is required" }
  function NameEmpty(field: string): string { field + " cannot be empty" }
  function NameLong(field: string): string { field + " must be less than 50 characters" }
  function NameChars(field: string): string { field + " can only contain letters, spaces, hyphens, and apostrophes" }

  /** ^[a-zA-Z\s'-]+ up to the anchor. */
  predicate NamePattern(n: string) { |n| > 0 && All(n, IsNameChar) }

  /** validate_name(name, field_name); the default field name is "Name". */
  function ValidateName(name: PyValue, field: string): (r: Outcome)
    ensures WellFormed(r)
    ensures Missing(name) ==> r == Fail(NameRequired(field))
  {
    if Missing(name) then Fail(NameRequired(field))
    else
      var n := PyStrip(name.s);
      if |n| < 1 then Fail(NameEmpty(field))
      else if |n| > MaxNameLength then Fail(NameLong(field))
      else if !PyAnchored(n, NamePattern) then Fail(NameChars(field))
      else Pass()
  }

  /** Whitespace-only input is "cannot be empty", not "is required". */
  lemma BlankNameCannotBeEmpty(s: string, field: string)
    requires s != [] && IsBlank(s, IsPySpace)
    ensures ValidateName(PyStr(s), field) == Fail(NameEmpty(field))
  {
    TrimEmptyIffBlank(s, IsPySpace);
  }

  /** Accepted exactly when the stripped text has 1 to 50 letters, whitespace, apostrophes or hyphens. */
  lemma NameAcceptedIff(s: string, field: string)
    ensures ValidateName(PyStr(s), field).ok <==>
      1 <= |PyStrip(s)| <= 50 && All(PyStrip(s), IsNameChar)
  {
    StrippedAnchored(s, NamePattern);
  }

  // ---------------------------------------------------------------- length

  /** str(value) for a value that is not None. */
  function PyStrOf(v: PyValue): string requires !v.PyNone? {
    if v.PyStr? then v.s else v.repr
  }

  function ValidateInputLength(value: PyValue, maxLength: int, field: string): (r: Outcome)
    ensures WellFormed(r)
    ensures r.ok <==> value.PyNone? || |PyStrOf(value)| <= maxLength
  {
    if value.PyNone? then Pass()
    else if |PyStrOf(value)| > maxLength then
      Fail(field + " must be less than " + IntToString(maxLength) + " characters")
    else Pass()
  }
}
