/**
 * String primitives shared by the models: the character classes used in the
 * regular expressions of the validators, the whitespace sets of Python's
 * str.strip and of JavaScript's String.prototype.trim, ASCII case mapping,
 * single-character split/join and decimal rendering of integers.
 */
module Text {
  import opened Wrappers

  // ---------------------------------------------------------------- classes

  predicate IsUpper(c: char) { 'A' <= c <= 'Z' }
  predicate IsLower(c: char) { 'a' <= c <= 'z' }
  predicate IsDigit(c: char) { '0' <= c <= '9' }
  predicate IsLetter(c: char) { IsUpper(c) || IsLower(c) }
  predicate IsAscii(c: char) { c as int < 128 }

  /** The whitespace of Python's str.isspace, str.strip and re's \s. */
  predicate IsPySpace(c: char) {
    var n := c as int;
    (9 <= n <= 13) || (0x1C <= n <= 0x20) || n == 0x85 || n == 0xA0 || n == 0x1680
    || (0x2000 <= n <= 0x200A) || n == 0x2028 || n == 0x2029 || n == 0x202F
    || n == 0x205F || n == 0x3000
  }

  /** The whitespace of JavaScript's String.prototype.trim and of \s in its regular expressions. */
  predicate IsJsSpace(c: char) {
    var n := c as int;
    (9 <= n <= 13) || n == 0x20 || n == 0xA0 || n == 0x1680
    || (0x2000 <= n <= 0x200A) || n == 0x2028 || n == 0x2029 || n == 0x202F
    || n == 0x205F || n == 0x3000 || n == 0xFEFF
  }

  /** Characters on which the two whitespace sets above agree and which are ASCII. */
  predicate IsPortable(c: char) { IsAscii(c) && !(0x1C <= c as int <= 0x1F) }

  predicate AllPortable(s: string) { forall i :: 0 <= i < |s| ==> IsPortable(s[i]) }

  lemma PortableSpaceAgrees(c: char)
    requires IsPortable(c)
    ensures IsPySpace(c) == IsJsSpace(c)
  {}

  // ---------------------------------------------------------------- JavaScript length

  /** A character outside the Basic Multilingual Plane, which UTF-16 writes as a surrogate pair. */
  predicate IsAstral(c: char) { c as int >= 0x10000 }

  predicate NoAstral(s: string) { forall i :: 0 <= i < |s| ==> !IsAstral(s[i]) }

  /** String.prototype.length: UTF-16 code units, so an astral character counts twice. */
  function JsLength(s: string): (n: nat)
    ensures |s| <= n <= 2 * |s|
  {
    if s == [] then 0 else (if IsAstral(s[0]) then 2 else 1) + JsLength(s[1..])
  }

  /** JavaScript's length is the number of characters exactly when no character is astral. */
  lemma {:induction false} JsLengthIsCount(s: string)
    ensures JsLength(s) == |s| <==> NoAstral(s)
  {
    if s != [] {
      JsLengthIsCount(s[1..]);
      if NoAstral(s) {
        assert NoAstral(s[1..]) by {
          forall i | 0 <= i < |s[1..]| ensures !IsAstral(s[1..][i]) { assert s[1..][i] == s[i + 1]; }
        }
      } else if JsLength(s) == |s| {
        assert !IsAstral(s[0]) && NoAstral(s[1..]);
        forall i | 0 <= i < |s| ensures !IsAstral(s[i]) {
          if i > 0 { assert s[i] == s[1..][i - 1]; }
        }
        assert false;
      }
    }
  }

  /** One more character adds two units when it is astral and one otherwise. */
  lemma JsLengthCons(c: char, t: string)
    ensures JsLength([c] + t) == (if IsAstral(c) then 2 else 1) + JsLength(t)
  {
    assert ([c] + t)[1..] == t;
  }

  /** Portable text has no astral character, so both lengths agree on it. */
  lemma PortableLength(s: string)
    requires AllPortable(s)
    ensures JsLength(s) == |s|
  {
    JsLengthIsCount(s);
  }

  predicate All(s: string, p: char -> bool) { forall i :: 0 <= i < |s| ==> p(s[i]) }

  predicate Exists(s: string, p: char -> bool) { exists i :: 0 <= i < |s| && p(s[i]) }

  // ---------------------------------------------------------------- trimming

  function TrimStart(s: string, ws: char -> bool): (r: string)
    ensures |r| <= |s|
    decreases |s|
  {
    if |s| > 0 && ws(s[0]) then TrimStart(s[1..], ws) else s
  }

  function TrimEnd(s: string, ws: char -> bool): (r: string)
    ensures |r| <= |s|
    decreases |s|
  {
    if |s| > 0 && ws(s[|s| - 1]) then TrimEnd(s[..|s| - 1], ws) else s
  }

  /** Removes the leading and trailing characters satisfying ws. */
  function Trim(s: string, ws: char -> bool): string
  {
    TrimEnd(TrimStart(s, ws), ws)
  }

  /** TrimStart drops a run of ws characters and stops at a non-ws character. */
  lemma {:induction false} TrimStartFacts(s: string, ws: char -> bool)
    ensures TrimStart(s, ws) == s[|s| - |TrimStart(s, ws)|..]
    ensures TrimStart(s, ws) == [] || !ws(TrimStart(s, ws)[0])
    ensures forall k :: 0 <= k < |s| - |TrimStart(s, ws)| ==> ws(s[k])
    decreases |s|
  {
    if |s| > 0 && ws(s[0]) {
      TrimStartFacts(s[1..], ws);
      forall k | 0 <= k < |s| - |TrimStart(s, ws)|
        ensures ws(s[k])
      {
        if k > 0 {
          assert s[k] == s[1..][k - 1];
        }
      }
    }
  }

  /** TrimEnd drops a run of ws characters and stops at a non-ws character. */
  lemma {:induction false} TrimEndFacts(s: string, ws: char -> bool)
    ensures TrimEnd(s, ws) == s[..|TrimEnd(s, ws)|]
    ensures TrimEnd(s, ws) == [] || !ws(TrimEnd(s, ws)[|TrimEnd(s, ws)| - 1])
    ensures forall k :: |TrimEnd(s, ws)| <= k < |s| ==> ws(s[k])
    decreases |s|
  {
    if |s| > 0 && ws(s[|s| - 1]) {
      TrimEndFacts(s[..|s| - 1], ws);
    }
  }

  /**
   * The trimmed string is the infix s[i..j] whose outside consists of ws
   * characters only and whose two ends are not ws characters.
   */
  lemma {:induction false} TrimShape(s: string, ws: char -> bool) returns (i: nat, j: nat)
    ensures i <= j <= |s| && Trim(s, ws) == s[i..j]
    ensures forall k :: 0 <= k < i ==> ws(s[k])
    ensures forall k :: j <= k < |s| ==> ws(s[k])
    ensures i < j ==> !ws(s[i]) && !ws(s[j - 1])
  {
    var a := TrimStart(s, ws);
    var b := TrimEnd(a, ws);
    TrimStartFacts(s, ws);
    TrimEndFacts(a, ws);
    i := |s| - |a|;
    j := i + |b|;
    TrimEndInside(s, a, b, i, ws);
  }

  /** A trimmed string does not end in a ws character. */
  lemma TrimEndClean(s: string, ws: char -> bool)
    ensures Trim(s, ws) == [] || !ws(Trim(s, ws)[|Trim(s, ws)| - 1])
  {
    TrimEndFacts(TrimStart(s, ws), ws);
  }

  /** TrimShape with the TrimStart result a = s[i..] and the TrimEnd result b given. */
  lemma {:induction false} TrimEndInside(s: string, a: string, b: string, i: nat, ws: char -> bool)
    requires i <= |s| && a == s[i..] && (a == [] || !ws(a[0]))
    requires forall k :: 0 <= k < i ==> ws(s[k])
    requires |b| <= |a| && b == a[..|b|] && (b == [] || !ws(b[|b| - 1]))
    requires forall k :: |b| <= k < |a| ==> ws(a[k])
    ensures i + |b| <= |s| && b == s[i..i + |b|]
    ensures forall k :: 0 <= k < i ==> ws(s[k])
    ensures forall k :: i + |b| <= k < |s| ==> ws(s[k])
    ensures i < i + |b| ==> !ws(s[i]) && !ws(s[i + |b| - 1])
  {
    forall k | i + |b| <= k < |s|
      ensures ws(s[k])
    {
      assert s[k] == a[k - i];
    }
    if b != [] {
      assert s[i] == a[0] == b[0];
      assert s[i + |b| - 1] == b[|b| - 1];
    }
  }

  /** Trimming leaves nothing to trim. */
  lemma TrimIdempotent(s: string, ws: char -> bool)
    ensures Trim(Trim(s, ws), ws) == Trim(s, ws)
  {
    var t := Trim(s, ws);
    var i, j := TrimShape(s, ws);
    assert TrimStart(t, ws) == t;
  }

  /** Nothing is trimmed from a string whose two ends are not ws characters. */
  lemma TrimUntouched(s: string, ws: char -> bool)
    requires s != [] && !ws(s[0]) && !ws(s[|s| - 1])
    ensures Trim(s, ws) == s
  {}

  /** A leading ws character is trimmed away. */
  lemma TrimDropsHead(c: char, s: string, ws: char -> bool)
    requires ws(c)
    ensures Trim([c] + s, ws) == Trim(s, ws)
  {
    assert ([c] + s)[1..] == s;
  }

  predicate IsBlank(s: string, ws: char -> bool) { forall k :: 0 <= k < |s| ==> ws(s[k]) }

  lemma TrimEmptyIffBlank(s: string, ws: char -> bool)
    ensures Trim(s, ws) == [] <==> IsBlank(s, ws)
  {
    var i, j := TrimShape(s, ws);
  }

  /** `!s.trim()` in JavaScript, stated without the trimming: every character is JavaScript whitespace. */
  predicate JsBlank(s: string) { forall k :: 0 <= k < |s| ==> IsJsSpace(s[k]) }

  lemma JsBlankIff(s: string)
    ensures JsBlank(s) <==> JsTrim(s) == []
  {
    TrimEmptyIffBlank(s, IsJsSpace);
  }

  /** Whitespace sets that agree on the characters of s give the same trim. */
  lemma {:induction false} TrimAgrees(s: string, ws1: char -> bool, ws2: char -> bool)
    requires forall k :: 0 <= k < |s| ==> ws1(s[k]) == ws2(s[k])
    ensures Trim(s, ws1) == Trim(s, ws2)
  {
    TrimStartAgrees(s, ws1, ws2);
    TrimStartFacts(s, ws1);
    var a := TrimStart(s, ws1);
    assert forall k :: 0 <= k < |a| ==> a[k] == s[|s| - |a| + k];
    TrimEndAgrees(a, ws1, ws2);
  }

  lemma {:induction false} TrimStartAgrees(s: string, ws1: char -> bool, ws2: char -> bool)
    requires forall k :: 0 <= k < |s| ==> ws1(s[k]) == ws2(s[k])
    ensures TrimStart(s, ws1) == TrimStart(s, ws2)
    decreases |s|
  {
    if |s| > 0 && ws1(s[0]) {
      TrimStartAgrees(s[1..], ws1, ws2);
    }
  }

  lemma {:induction false} TrimEndAgrees(s: string, ws1: char -> bool, ws2: char -> bool)
    requires forall k :: 0 <= k < |s| ==> ws1(s[k]) == ws2(s[k])
    ensures TrimEnd(s, ws1) == TrimEnd(s, ws2)
    decreases |s|
  {
    if |s| > 0 && ws1(s[|s| - 1]) {
      TrimEndAgrees(s[..|s| - 1], ws1, ws2);
    }
  }

  /** JavaScript's String.prototype.trim. */
  function JsTrim(s: string): string { Trim(s, IsJsSpace) }

  /** `s.trim() !== ''` */
  predicate TrimsToText(s: string) { JsTrim(s) != [] }

  /** Python's str.strip() with no argument. */
  function PyStrip(s: string): string { Trim(s, IsPySpace) }

  /** On portable text the two languages trim alike. */
  lemma PortableTrimAgrees(s: string)
    requires AllPortable(s)
    ensures JsTrim(s) == PyStrip(s)
  {
    TrimAgrees(s, IsJsSpace, IsPySpace);
  }

  /** A trimmed string is an infix, so its characters come from the input. */
  lemma TrimChars(s: string, ws: char -> bool, p: char -> bool)
    requires All(s, p)
    ensures All(Trim(s, ws), p)
  {
    var i, j := TrimShape(s, ws);
  }

  // ---------------------------------------------------------------- case

  function ToLowerChar(c: char): char { if IsUpper(c) then (c as int + 32) as char else c }
  function ToUpperChar(c: char): char { if IsLower(c) then (c as int - 32) as char else c }

  /** ASCII lower-casing, character by character. */
  function ToLower(s: string): (r: string)
    ensures |r| == |s| && forall i :: 0 <= i < |s| ==> r[i] == ToLowerChar(s[i])
  {
    seq(|s|, i requires 0 <= i < |s| => ToLowerChar(s[i]))
  }

  /** ASCII upper-casing, character by character. */
  function ToUpper(s: string): (r: string)
    ensures |r| == |s| && forall i :: 0 <= i < |s| ==> r[i] == ToUpperChar(s[i])
  {
    seq(|s|, i requires 0 <= i < |s| => ToUpperChar(s[i]))
  }

  // ---------------------------------------------------------------- search

  predicate StartsWith(s: string, p: string) { |p| <= |s| && s[..|p|] == p }

  /** t occurs in s as a contiguous infix (String.prototype.includes). */
  predicate Contains(s: string, t: string)
    decreases |s|
  {
    StartsWith(s, t) || (|s| > 0 && Contains(s[1..], t))
  }

  lemma {:induction false} ContainsAt(s: string, t: string, i: nat)
    requires i + |t| <= |s| && s[i..i + |t|] == t
    ensures Contains(s, t)
    decreases i
  {
    if i > 0 {
      assert s[1..][i - 1..i - 1 + |t|] == s[i..i + |t|];
      ContainsAt(s[1..], t, i - 1);
    }
  }

  /** Text in front of s does not hide what s contains. */
  lemma {:induction false} ContainsAfter(pre: string, s: string, t: string)
    requires Contains(s, t)
    ensures Contains(pre + s, t)
    decreases |pre|
  {
    if pre != [] {
      assert (pre + s)[1..] == pre[1..] + s;
      ContainsAfter(pre[1..], s, t);
    } else {
      assert pre + s == s;
    }
  }

  /** The characters of r appear in s in the same order. */
  predicate IsSubsequence(r: string, s: string)
    decreases |s|
  {
    if r == [] then true
    else if s == [] then false
    else if r[0] == s[0] then IsSubsequence(r[1..], s[1..])
    else IsSubsequence(r, s[1..])
  }

  /** Keeps the characters satisfying keep, in order. */
  function Filter(s: string, keep: char -> bool): (r: string)
    ensures |r| <= |s|
    ensures All(r, keep)
    decreases |s|
  {
    if s == [] then []
    else if keep(s[0]) then [s[0]] + Filter(s[1..], keep)
    else Filter(s[1..], keep)
  }

  lemma {:induction false} FilterIsSubsequence(s: string, keep: char -> bool)
    ensures IsSubsequence(Filter(s, keep), s)
    decreases |s|
  {
    if s != [] {
      FilterIsSubsequence(s[1..], keep);
      if !keep(s[0]) {
        SubsequenceSkip(Filter(s[1..], keep), s[0], s[1..]);
      }
    }
  }

  lemma {:induction false} SubsequenceSkip(r: string, c: char, s: string)
    requires IsSubsequence(r, s)
    ensures IsSubsequence(r, [c] + s)
    decreases |s|, 1
  {
    assert ([c] + s)[1..] == s;
    if r != [] && r[0] == c {
      SubsequenceTail(r, s);
    }
  }

  /** Dropping the head of a subsequence keeps it a subsequence. */
  lemma {:induction false} SubsequenceTail(r: string, s: string)
    requires r != [] && IsSubsequence(r, s)
    ensures IsSubsequence(r[1..], s)
    decreases |s|, 0
  {
    if r[0] == s[0] {
      SubsequenceSkip(r[1..], s[0], s[1..]);
    } else {
      SubsequenceTail(r, s[1..]);
      SubsequenceSkip(r[1..], s[0], s[1..]);
    }
    assert [s[0]] + s[1..] == s;
  }

  /** Filtering with the same predicate again changes nothing. */
  lemma {:induction false} FilterIdempotent(s: string, keep: char -> bool)
    ensures Filter(Filter(s, keep), keep) == Filter(s, keep)
    decreases |s|
  {
    if s != [] {
      FilterIdempotent(s[1..], keep);
      if keep(s[0]) {
        assert ([s[0]] + Filter(s[1..], keep))[1..] == Filter(s[1..], keep);
      }
    }
  }

  lemma {:induction false} FilterAllKept(s: string, keep: char -> bool)
    requires All(s, keep)
    ensures Filter(s, keep) == s
    decreases |s|
  {
    if s != [] {
      FilterAllKept(s[1..], keep);
    }
  }

  /** The trimmed string keeps its characters in order. */
  lemma TrimIsSubsequence(s: string, ws: char -> bool)
    ensures IsSubsequence(Trim(s, ws), s)
  {
    var i, j := TrimShape(s, ws);
    InfixIsSubsequence(s, i, j);
  }

  lemma {:induction false} SubsequenceTransitive(a: string, b: string, c: string)
    requires IsSubsequence(a, b) && IsSubsequence(b, c)
    ensures IsSubsequence(a, c)
    decreases |c|
  {
    if a != [] && c != [] {
      if b[0] == c[0] && a[0] == b[0] {
        SubsequenceTransitive(a[1..], b[1..], c[1..]);
      } else {
        if b[0] == c[0] {
          SubsequenceTransitive(a, b[1..], c[1..]);
        } else {
          SubsequenceTransitive(a, b, c[1..]);
        }
        if a[0] == c[0] {
          SubsequenceTail(a, c[1..]);
        }
      }
    }
  }

  /** An infix of s is a subsequence of s. */
  lemma {:induction false} InfixIsSubsequence(s: string, i: nat, j: nat)
    requires i <= j <= |s|
    ensures IsSubsequence(s[i..j], s)
    decreases |s|
  {
    if i < j {
      if i == 0 {
        InfixIsSubsequence(s[1..], 0, j - 1);
        assert s[1..][0..j - 1] == s[0..j][1..];
      } else {
        InfixIsSubsequence(s[1..], i - 1, j - 1);
        assert s[1..][i - 1..j - 1] == s[i..j];
        SubsequenceSkip(s[i..j], s[0], s[1..]);
        assert [s[0]] + s[1..] == s;
      }
    }
  }

  /** Subsequences of two texts, concatenated, are a subsequence of the two texts concatenated. */
  lemma {:induction false} SubsequenceConcat(a: string, x: string, b: string, y: string)
    requires IsSubsequence(a, x) && IsSubsequence(b, y)
    ensures IsSubsequence(a + b, x + y)
    decreases |x|
  {
    if x == [] {
      assert a == [];
      assert a + b == b && x + y == y;
    } else {
      assert (x + y)[1..] == x[1..] + y;
      if a != [] && a[0] == x[0] {
        SubsequenceConcat(a[1..], x[1..], b, y);
        assert (a + b)[1..] == a[1..] + b;
      } else {
        SubsequenceConcat(a, x[1..], b, y);
        SubsequenceSkip(a + b, x[0], x[1..] + y);
        assert [x[0]] + (x[1..] + y) == x + y;
      }
    }
  }

  function IndexOf(s: string, c: char): (r: Option<nat>)
    ensures r.Some? ==> r.value < |s| && s[r.value] == c && c !in s[..r.value]
    ensures r.None? ==> c !in s
    decreases |s|
  {
    if s == [] then None
    else if s[0] == c then Some(0)
    else match IndexOf(s[1..], c)
      case None => None
      case Some(k) => assert s[..k + 1] == [s[0]] + s[1..][..k]; Some(k + 1)
  }

  function LastIndexOf(s: string, c: char): (r: Option<nat>)
    ensures r.Some? ==> r.value < |s| && s[r.value] == c && c !in s[r.value + 1..]
    ensures r.None? ==> c !in s
    decreases |s|
  {
    if s == [] then None
    else if s[|s| - 1] == c then Some(|s| - 1)
    else match LastIndexOf(s[..|s| - 1], c)
      case None => assert s == s[..|s| - 1] + [s[|s| - 1]]; None
      case Some(k) => assert s[k + 1..] == s[..|s| - 1][k + 1..] + [s[|s| - 1]]; Some(k)
  }

  lemma {:induction false} IndexOfIs(s: string, c: char, i: nat)
    requires i < |s| && s[i] == c && forall k :: 0 <= k < i ==> s[k] != c
    ensures IndexOf(s, c) == Some(i)
  {
    if i > 0 {
      IndexOfIs(s[1..], c, i - 1);
    }
  }

  lemma {:induction false} LastIndexOfIs(s: string, c: char, j: nat)
    requires j < |s| && s[j] == c && forall k :: j < k < |s| ==> s[k] != c
    ensures LastIndexOf(s, c) == Some(j)
    decreases |s|
  {
    if j < |s| - 1 {
      LastIndexOfIs(s[..|s| - 1], c, j);
    }
  }

  // ---------------------------------------------------------------- split / join

  /** JavaScript's s.split(sep) for a one-character separator: never empty. */
  function Split(s: string, sep: char): (r: seq<string>)
    ensures |r| >= 1
    decreases |s|
  {
    if s == [] then [[]]
    else
      var rest := Split(s[1..], sep);
      if s[0] == sep then [[]] + rest else [[s[0]] + rest[0]] + rest[1..]
  }

  /** Array.prototype.join(sep) for a one-character separator. */
  function Join(parts: seq<string>, sep: char): string
    decreases |parts|
  {
    if parts == [] then []
    else if |parts| == 1 then parts[0]
    else parts[0] + [sep] + Join(parts[1..], sep)
  }

  /** Array.prototype.join(sep) for a separator of any length. */
  function JoinWith(parts: seq<string>, sep: string): (r: string)
    ensures |parts| >= 1 ==> StartsWith(r, parts[0])
    decreases |parts|
  {
    if parts == [] then []
    else if |parts| == 1 then parts[0]
    else parts[0] + sep + JoinWith(parts[1..], sep)
  }

  /** Every part occurs in the joined text. */
  lemma {:induction false} JoinWithContains(parts: seq<string>, sep: string, k: nat)
    requires k < |parts|
    ensures Contains(JoinWith(parts, sep), parts[k])
    decreases |parts|
  {
    if k == 0 {
      ContainsAt(JoinWith(parts, sep), parts[0], 0);
    } else {
      JoinWithContains(parts[1..], sep, k - 1);
      assert JoinWith(parts, sep) == (parts[0] + sep) + JoinWith(parts[1..], sep);
      ContainsAfter(parts[0] + sep, JoinWith(parts[1..], sep), parts[k]);
    }
  }

  predicate NoPartHas(parts: seq<string>, c: char) { forall k :: 0 <= k < |parts| ==> c !in parts[k] }

  /** Split then Join gives back the input, and no piece contains the separator. */
  lemma {:induction false} SplitJoin(s: string, sep: char)
    ensures Join(Split(s, sep), sep) == s
    ensures NoPartHas(Split(s, sep), sep)
    decreases |s|
  {
    if s != [] {
      var rest := Split(s[1..], sep);
      SplitJoin(s[1..], sep);
      if s[0] == sep {
        assert Split(s, sep) == [[]] + rest;
        if |rest| == 1 {
          assert Join(Split(s, sep), sep) == [] + [sep] + rest[0];
        } else {
          assert ([[]] + rest)[1..] == rest;
        }
        assert [s[0]] + s[1..] == s;
      } else {
        var r := Split(s, sep);
        assert r == [[s[0]] + rest[0]] + rest[1..];
        if |rest| == 1 {
          assert Join(r, sep) == [s[0]] + rest[0];
        } else {
          assert r[1..] == rest[1..];
          assert Join(rest, sep) == rest[0] + [sep] + Join(rest[1..], sep);
        }
        assert [s[0]] + s[1..] == s;
        assert forall k :: 1 <= k < |r| ==> r[k] == rest[k];
      }
    }
  }

  /** The last piece of Split is the text after the last separator. */
  function Last(parts: seq<string>): string requires |parts| >= 1 { parts[|parts| - 1] }

  /** All pieces but the last: the separator-terminated ones. */
  function Init(parts: seq<string>): seq<string> requires |parts| >= 1 { parts[..|parts| - 1] }

  lemma {:induction false} SplitSingle(s: string, sep: char)
    requires |Split(s, sep)| == 1
    ensures Split(s, sep)[0] == s
  {
    SplitJoin(s, sep);
  }

  /**
   * Splitting a concatenation: the pieces of x that end in a separator stay
   * as they are, and the unterminated tail of x is continued by y.
   */
  lemma {:induction false} SplitAppend(x: string, y: string, sep: char)
    ensures Split(x + y, sep) == Init(Split(x, sep)) + Split(Last(Split(x, sep)) + y, sep)
    decreases |x|
  {
    if x == [] {
      assert x + y == y;
    } else {
      assert (x + y)[1..] == x[1..] + y;
      SplitAppend(x[1..], y, sep);
      if x[0] == sep {
        SplitAppendAtSeparator(x, y, sep);
      } else if |Split(x[1..], sep)| == 1 {
        SplitAppendSinglePiece(x, y, sep);
      } else {
        SplitAppendInsidePiece(x, y, sep);
      }
    }
  }

  /** A separator-free piece followed by the separator is split off as the first piece. */
  lemma {:induction false} SplitAtSeparator(x: string, y: string, sep: char)
    requires sep !in x
    ensures Split(x + [sep] + y, sep) == [x] + Split(y, sep)
    decreases |x|
  {
    if x == [] {
      assert x + [sep] + y == [sep] + y;
    } else {
      assert (x + [sep] + y)[1..] == x[1..] + [sep] + y;
      SplitAtSeparator(x[1..], y, sep);
      assert [x[0]] + x[1..] == x;
    }
  }

  lemma SplitAppendAtSeparator(x: string, y: string, sep: char)
    requires x != [] && x[0] == sep
    requires (x + y)[1..] == x[1..] + y
    requires Split(x[1..] + y, sep) == Init(Split(x[1..], sep)) + Split(Last(Split(x[1..], sep)) + y, sep)
    ensures Split(x + y, sep) == Init(Split(x, sep)) + Split(Last(Split(x, sep)) + y, sep)
  {
    var px := Split(x[1..], sep);
    var tail := Split(Last(px) + y, sep);
    assert Split(x + y, sep) == [[]] + (Init(px) + tail);
    assert Init(Split(x, sep)) == [[]] + Init(px) && Last(Split(x, sep)) == Last(px) by {
      assert Split(x, sep) == [[]] + px;
    }
    SeqAssoc([[]], Init(px), tail);
  }

  lemma SplitAppendSinglePiece(x: string, y: string, sep: char)
    requires x != [] && x[0] != sep && |Split(x[1..], sep)| == 1
    ensures Split(x + y, sep) == Init(Split(x, sep)) + Split(Last(Split(x, sep)) + y, sep)
  {
    var rest := Split(x[1..], sep);
    SplitSingle(x[1..], sep);
    assert rest == [x[1..]] && rest[1..] == [];
    assert [x[0]] + x[1..] == x;
    assert Split(x, sep) == [x];
    assert Init([x]) == [];
  }

  lemma SplitAppendInsidePiece(x: string, y: string, sep: char)
    requires x != [] && x[0] != sep && |Split(x[1..], sep)| > 1
    requires (x + y)[1..] == x[1..] + y
    requires Split(x[1..] + y, sep) == Init(Split(x[1..], sep)) + Split(Last(Split(x[1..], sep)) + y, sep)
    ensures Split(x + y, sep) == Init(Split(x, sep)) + Split(Last(Split(x, sep)) + y, sep)
  {
    var px := Split(x[1..], sep);
    var r := Split(x[1..] + y, sep);
    var tail := Split(Last(px) + y, sep);
    var head := [[x[0]] + px[0]];
    assert r[0] == px[0] && r[1..] == Init(px)[1..] + tail;
    assert Split(x + y, sep) == head + r[1..];
    assert Init(Split(x, sep)) == head + Init(px)[1..] by {
      assert Split(x, sep) == head + px[1..];
    }
    SeqAssoc(head, Init(px)[1..], tail);
  }

  lemma SeqAssoc<T>(a: seq<T>, b: seq<T>, c: seq<T>)
    ensures a + (b + c) == a + b + c
  {}

  /** Each piece followed by the separator, concatenated. */
  function JoinTerminated(parts: seq<string>, sep: char): string
    decreases |parts|
  {
    if parts == [] then [] else parts[0] + [sep] + JoinTerminated(parts[1..], sep)
  }

  /** Joining is terminating every piece but the last and appending the last. */
  lemma {:induction false} JoinAsTerminated(parts: seq<string>, sep: char)
    requires |parts| >= 1
    ensures Join(parts, sep) == JoinTerminated(Init(parts), sep) + Last(parts)
    decreases |parts|
  {
    if |parts| > 1 {
      JoinAsTerminated(parts[1..], sep);
      assert Init(parts)[1..] == Init(parts[1..]);
    }
  }

  /** The separator-terminated pieces of x + y: those of x, then those completed by y. */
  lemma InitSplitAppend(x: string, y: string, sep: char)
    ensures Init(Split(x + y, sep)) == Init(Split(x, sep)) + Init(Split(Last(Split(x, sep)) + y, sep))
  {
    SplitAppend(x, y, sep);
  }

  /** Appending text without a separator to separator-ended text completes no new piece. */
  lemma UnterminatedTail(x: string, tail: string, sep: char)
    requires x == [] || x[|x| - 1] == sep
    requires sep !in tail
    ensures Init(Split(x + tail, sep)) == Init(Split(x, sep))
  {
    InitSplitAppend(x, tail, sep);
    if x != [] {
      assert x[..|x| - 1] + [sep] == x;
      SplitEndingInSeparator(x[..|x| - 1], sep);
    }
    assert Last(Split(x, sep)) + tail == tail;
    NoSeparatorSingle(tail, sep);
  }

  lemma {:induction false} SplitEndingInSeparator(s: string, sep: char)
    ensures |Split(s + [sep], sep)| >= 2 && Last(Split(s + [sep], sep)) == []
    decreases |s|
  {
    if s == [] {
      assert Split([sep], sep) == [[]] + Split([], sep);
    } else {
      assert (s + [sep])[1..] == s[1..] + [sep];
      SplitEndingInSeparator(s[1..], sep);
    }
  }

  lemma {:induction false} NoSeparatorSingle(s: string, sep: char)
    requires sep !in s
    ensures Split(s, sep) == [s]
    decreases |s|
  {
    if s != [] {
      NoSeparatorSingle(s[1..], sep);
      assert [s[0]] + s[1..] == s;
    }
  }

  // ---------------------------------------------------------------- numbers

  function DigitChar(d: nat): char requires d < 10 { ('0' as int + d) as char }

  /** Decimal rendering of a natural number, as String(n) does. */
  function NatToString(n: nat): (r: string)
    ensures |r| >= 1 && forall i :: 0 <= i < |r| ==> IsDigit(r[i])
    decreases n
  {
    if n < 10 then [DigitChar(n)] else NatToString(n / 10) + [DigitChar(n % 10)]
  }

  /** Decimal rendering of an integer, with a leading '-' when negative. */
  function IntToString(n: int): (r: string)
    ensures |r| >= 1
    ensures (r[0] == '-') == (n < 0)
  {
    if n < 0 then "-" + NatToString(-n) else NatToString(n)
  }

  /** The value of a non-empty digit string. */
  function DigitsValue(s: string): nat
    requires forall i :: 0 <= i < |s| ==> IsDigit(s[i])
    decreases |s|
  {
    if s == [] then 0
    else
      var d := s[|s| - 1];
      assert IsDigit(d);
      DigitsValue(s[..|s| - 1]) * 10 + (d as int - '0' as int)
  }

  /** Rendering then reading back a number gives the number. */
  lemma {:induction false} NatToStringValue(n: nat)
    ensures DigitsValue(NatToString(n)) == n
    decreases n
  {
    if n >= 10 {
      NatToStringValue(n / 10);
      var r := NatToString(n);
      assert r[..|r| - 1] == NatToString(n / 10);
    }
  }

  /** Numbers below 10^k are rendered with at most k digits. */
  lemma {:induction false} NatToStringLength(n: nat)
    ensures n < 10 ==> |NatToString(n)| == 1
    ensures n < 100 ==> |NatToString(n)| <= 2
    ensures n < 1000 ==> |NatToString(n)| <= 3
  {
    if n >= 10 {
      NatToStringLength(n / 10);
    }
  }
}
