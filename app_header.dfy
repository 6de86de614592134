/**
 * The mobile app's shared header (baby-sleep-native-fixed/src/components/AppHeader.tsx):
 * how a subtitle is normalised and split into what the header shows, the
 * avatar (the profile picture, or a placeholder letter), and the reload of
 * the stored user data that refreshes the picture's cache-busting stamp.
 *
 * API_BASE_URL and Date.now() are parameters.
 */
module AppHeader {
  import opened Wrappers
  import opened Text
  import L = Lists
  import S = Storage
  import FS = ForumService

  // ---------------------------------------------------------------- escaped newlines

  /** A backslash followed by 'n' at position i. */
  predicate EscapeAt(s: string, i: int) { 0 <= i && i + 1 < |s| && s[i] == '\\' && s[i + 1] == 'n' }

  predicate NoEscapedNewline(s: string) { forall i | 0 <= i < |s| :: !EscapeAt(s, i) }

  /** replace(/\\n/g, '\n'): every backslash-n, scanned left to right, becomes a line break. */
  function UnescapeNewlines(s: string): (r: string)
    ensures |r| <= |s|
    ensures s != [] ==> r != [] && r[0] == (if EscapeAt(s, 0) then '\n' else s[0])
    ensures NoEscapedNewline(r)
    decreases |s|
  {
    if s == [] then []
    else if EscapeAt(s, 0) then
      var rest := UnescapeNewlines(s[2..]);
      var r := ['\n'] + rest;
      assert forall i :: 1 <= i ==> (EscapeAt(r, i) <==> EscapeAt(rest, i - 1));
      r
    else
      var rest := UnescapeNewlines(s[1..]);
      var r := [s[0]] + rest;
      assert forall i :: 1 <= i ==> (EscapeAt(r, i) <==> EscapeAt(rest, i - 1));
      r
  }

  /** Text without a backslash is left as it is. */
  lemma {:induction false} UnescapeNoBackslash(s: string)
    requires '\\' !in s
    ensures UnescapeNewlines(s) == s
    decreases |s|
  {
    if s != [] {
      UnescapeNoBackslash(s[1..]);
    }
  }

  /** Text with no backslash-n left is left as it is, so normalising twice is normalising once. */
  lemma {:induction false} UnescapeFixed(s: string)
    requires NoEscapedNewline(s)
    ensures UnescapeNewlines(s) == s
    decreases |s|
  {
    if s != [] {
      assert !EscapeAt(s, 0);
      assert forall i :: EscapeAt(s[1..], i) ==> EscapeAt(s, i + 1);
      UnescapeFixed(s[1..]);
    }
  }

  lemma UnescapeIdempotent(s: string)
    ensures UnescapeNewlines(UnescapeNewlines(s)) == UnescapeNewlines(s)
  {
    UnescapeFixed(UnescapeNewlines(s));
  }

  /** A backslash-free prefix passes through, and the rest is normalised on its own. */
  lemma {:induction false} UnescapeAfterPlain(x: string, y: string)
    requires '\\' !in x
    ensures UnescapeNewlines(x + y) == x + UnescapeNewlines(y)
    decreases |x|
  {
    if x == [] {
      assert x + y == y;
    } else {
      assert (x + y)[1..] == x[1..] + y;
      UnescapeAfterPlain(x[1..], y);
      assert [x[0]] + (x[1..] + UnescapeNewlines(y)) == x + UnescapeNewlines(y);
    }
  }

  // ---------------------------------------------------------------- ", " search

  const CommaSep := ", "

  predicate OccursAt(s: string, t: string, k: nat) { k + |t| <= |s| && s[k..k + |t|] == t }

  /** s.indexOf(t, from) as an option. */
  function Find(s: string, t: string, from: nat): (r: Option<nat>)
    ensures r.Some? ==> from <= r.value && OccursAt(s, t, r.value)
    ensures forall k: nat :: from <= k && (r.None? || k < r.value) ==> !OccursAt(s, t, k)
    decreases |s| - from
  {
    if from + |t| > |s| then None
    else if s[from..from + |t|] == t then Some(from)
    else Find(s, t, from + 1)
  }

  // ---------------------------------------------------------------- the subtitle

  /** What the header shows under the logo: nothing, up to two lines, or one line of text. */
  datatype Subtitle = Hidden | Lines(lines: seq<string>) | Single(text: string)

  /** lines.map(line => line.trim()) */
  function TrimEach(lines: seq<string>): (r: seq<string>)
    ensures |r| == |lines|
    ensures forall i :: 0 <= i < |r| ==> r[i] == JsTrim(lines[i])
  {
    if lines == [] then [] else [JsTrim(lines[0])] + TrimEach(lines[1..])
  }

  /** filter(line => line.trim() !== '').slice(0, 2), each line then shown trimmed. */
  function FirstTwoTrimmed(pieces: seq<string>): (lines: seq<string>)
    ensures |lines| <= 2
  {
    var kept := L.Keep(pieces, TrimsToText);
    TrimEach(if |kept| <= 2 then kept else kept[..2])
  }

  /** The lines branch: the normalised subtitle split at its line breaks. */
  function ShownLines(n: string): (lines: seq<string>)
    ensures |lines| <= 2
  {
    FirstTwoTrimmed(Split(n, '\n'))
  }

  /**
   * The ", " branch: split(', ') and show parts[0], ", ", parts[1], which is
   * the normalised text up to its second ", " (or all of it).
   */
  function CommaShown(n: string): (text: string)
    requires Find(n, CommaSep, 0).Some?
    ensures StartsWith(n, text)
    ensures Find(n, CommaSep, Find(n, CommaSep, 0).value + 2).None? ==> text == n
    ensures Find(n, CommaSep, Find(n, CommaSep, 0).value + 2).Some? ==>
              |text| == Find(n, CommaSep, Find(n, CommaSep, 0).value + 2).value
  {
    var i := Find(n, CommaSep, 0).value;
    var next := Find(n, CommaSep, i + 2);
    var j := if next.Some? then next.value else |n|;
    assert n[..i] + CommaSep + n[i + 2..j] == n[..j] by {
      assert n[i..i + 2] == CommaSep;
    }
    n[..i] + CommaSep + n[i + 2..j]
  }

  /** The subtitle block: hidden for a missing or empty subtitle, else by the first rule that applies. */
  function SubtitleView(subtitle: Option<string>): (v: Subtitle)
    ensures v.Hidden? <==> subtitle.None? || subtitle.value == []
    ensures v.Lines? <==> subtitle.Some? && subtitle.value != [] && '\n' in UnescapeNewlines(subtitle.value)
    ensures v.Single? && Find(UnescapeNewlines(subtitle.value), CommaSep, 0).None? ==>
              v.text == UnescapeNewlines(subtitle.value)
    ensures v.Single? ==> StartsWith(UnescapeNewlines(subtitle.value), v.text)
  {
    if subtitle.None? || subtitle.value == [] then Hidden
    else
      var n := UnescapeNewlines(subtitle.value);
      if '\n' in n then Lines(ShownLines(n))
      else if Find(n, CommaSep, 0).Some? then Single(CommaShown(n))
      else Single(n)
  }

  lemma TrimmedText(line: string)
    requires TrimsToText(line)
    ensures JsTrim(line) != [] && JsTrim(JsTrim(line)) == JsTrim(line)
  {
    TrimIdempotent(line, IsJsSpace);
  }

  /** Every shown line is non-empty and has nothing left to trim. */
  lemma ShownLinesTrimmed(pieces: seq<string>, k: nat)
    requires k < |FirstTwoTrimmed(pieces)|
    ensures FirstTwoTrimmed(pieces)[k] != [] && JsTrim(FirstTwoTrimmed(pieces)[k]) == FirstTwoTrimmed(pieces)[k]
  {
    var kept := L.Keep(pieces, TrimsToText);
    TrimmedText(kept[k]);
  }

  lemma SplitTwoLines(a: string, b: string)
    requires '\n' !in a && '\n' !in b
    ensures Split(a + "\n" + b, '\n') == [a, b]
  {
    NoSeparatorSingle(b, '\n');
    SplitAtSeparator(a, b, '\n');
  }

  lemma SplitThreeLines(a: string, b: string, c: string)
    requires '\n' !in a && '\n' !in b && '\n' !in c
    ensures Split(a + "\n" + b + "\n" + c, '\n') == [a, b, c]
  {
    SplitTwoLines(b, c);
    SplitAtSeparator(a, b + "\n" + c, '\n');
    assert a + "\n" + b + "\n" + c == a + ['\n'] + (b + "\n" + c);
  }

  /** A literal backslash-n between two backslash-free texts becomes a line break. */
  lemma UnescapeJoin(a: string, b: string)
    requires '\\' !in a && '\\' !in b
    ensures UnescapeNewlines(a + "\\n" + b) == a + "\n" + b
  {
    assert a + "\\n" + b == a + ("\\n" + b);
    UnescapeAfterPlain(a, "\\n" + b);
    assert EscapeAt("\\n" + b, 0) && ("\\n" + b)[2..] == b;
    UnescapeNoBackslash(b);
    assert a + ("\n" + b) == a + "\n" + b;
  }

  /** Two non-blank lines joined by a literal backslash-n are shown as two trimmed lines. */
  lemma TwoEscapedLines(a: string, b: string)
    requires '\\' !in a && '\\' !in b && '\n' !in a && '\n' !in b
    requires TrimsToText(a) && TrimsToText(b)
    ensures SubtitleView(Some(a + "\\n" + b)) == Lines([JsTrim(a), JsTrim(b)])
  {
    UnescapeJoin(a, b);
    assert (a + "\n" + b)[|a|] == '\n';
    SplitTwoLines(a, b);
    L.KeepAll([a, b], TrimsToText);
  }

  /** Of three non-blank lines only the first two are shown. */
  lemma ThirdLineDropped(a: string, b: string, c: string)
    requires '\n' !in a && '\n' !in b && '\n' !in c
    requires TrimsToText(a) && TrimsToText(b) && TrimsToText(c)
    ensures ShownLines(a + "\n" + b + "\n" + c) == [JsTrim(a), JsTrim(b)]
  {
    SplitThreeLines(a, b, c);
    L.KeepAll([a, b, c], TrimsToText);
  }

  /** A blank line between two lines is skipped rather than shown. */
  lemma BlankLineSkipped(a: string, blank: string, b: string)
    requires '\n' !in a && '\n' !in blank && '\n' !in b
    requires TrimsToText(a) && !TrimsToText(blank) && TrimsToText(b)
    ensures ShownLines(a + "\n" + blank + "\n" + b) == [JsTrim(a), JsTrim(b)]
  {
    SplitThreeLines(a, blank, b);
    var pieces := [a, blank, b];
    assert pieces[1..] == [blank, b] && pieces[1..][1..] == [b] && pieces[1..][1..][1..] == [];
    assert L.Keep([b], TrimsToText) == [b];
    assert L.Keep([blank, b], TrimsToText) == [b];
    assert L.Keep(pieces, TrimsToText) == [a] + [b];
  }

  // ---------------------------------------------------------------- the avatar

  /** `username?.charAt(0).toUpperCase() || 'R'` */
  function AvatarLetter(username: Option<string>): (r: string)
    ensures |r| == 1 && !IsLower(r[0])
    ensures username.None? || username.value == [] ==> r == "R"
    ensures username.Some? && username.value != [] ==> r == [ToUpperChar(username.value[0])]
  {
    if username.Some? && username.value != [] then [ToUpperChar(username.value[0])] else "R"
  }

  /** The user fields the header keeps. */
  datatype HeaderUser = HeaderUser(profilePicture: Option<string>, username: Option<string>, firstName: Option<string>)

  datatype Avatar = Picture(uri: string) | Placeholder(letter: string)

  /** The picture's URL, with the stamp appended so that a new stamp is a new URL. */
  function PictureUri(base: string, picture: string, stamp: nat): string {
    FS.FileUrl(base, picture) + "?t=" + NatToString(stamp)
  }

  /** A stored (non-empty) picture is shown from the server; otherwise the placeholder letter. */
  function AvatarFor(base: string, user: HeaderUser, stamp: nat): (a: Avatar)
    ensures a.Picture? <==> user.profilePicture.Some? && user.profilePicture.value != []
    ensures a.Placeholder? ==> a.letter == AvatarLetter(user.username)
  {
    if user.profilePicture.Some? && user.profilePicture.value != [] then Picture(PictureUri(base, user.profilePicture.value, stamp))
    else Placeholder(AvatarLetter(user.username))
  }

  /** Different stamps give different picture URLs, which defeats the image cache. */
  lemma NewStampNewUri(base: string, picture: string, s1: nat, s2: nat)
    requires s1 != s2
    ensures PictureUri(base, picture, s1) != PictureUri(base, picture, s2)
  {
    var prefix := FS.FileUrl(base, picture) + "?t=";
    if PictureUri(base, picture, s1) == PictureUri(base, picture, s2) {
      assert (prefix + NatToString(s1))[|prefix|..] == NatToString(s1);
      assert (prefix + NatToString(s2))[|prefix|..] == NatToString(s2);
      NatToStringValue(s1);
      NatToStringValue(s2);
    }
  }

  class Header {
    var userData: HeaderUser
    var imageTimestamp: nat

    constructor(now: nat)
      ensures userData == HeaderUser(None, None, None) && imageTimestamp == now
    {
      userData := HeaderUser(None, None, None);
      imageTimestamp := now;
    }

    /**
     * loadUserData: the stored user replaces the shown one, and the stamp is
     * renewed exactly when the picture changed; a failed read changes nothing.
     */
    method LoadUserData(data: Option<S.UserData>, now: nat)
      modifies this
      ensures data.None? ==> userData == old(userData) && imageTimestamp == old(imageTimestamp)
      ensures data.Some? ==>
                userData == HeaderUser(data.value.profilePicture, data.value.username, data.value.firstName)
      ensures data.Some? && data.value.profilePicture != old(userData.profilePicture) ==> imageTimestamp == now
      ensures data.Some? && data.value.profilePicture == old(userData.profilePicture) ==> imageTimestamp == old(imageTimestamp)
    {
      if data.Some? {
        var d := data.value;
        if d.profilePicture != userData.profilePicture {
          imageTimestamp := now;
        }
        userData := HeaderUser(d.profilePicture, d.username, d.firstName);
      }
    }
  }
}
