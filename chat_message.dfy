/**
 * How both clients turn an assistant reply into display blocks
 * (baby-sleep-native-fixed/src/components/ChatMessage.tsx and
 * frontend/src/components/ChatMessage.jsx): the native client first strips
 * markdown with a chain of global regular-expression replacements; both
 * split the text into paragraphs on runs of blank lines and classify each
 * paragraph as a list, a heading (web only) or plain lines.
 */
module ChatMessage {
  import opened Wrappers
  import opened Text
  import L = Lists

  // ---------------------------------------------------------------- scanning

  /** The characters a scan stops at. */
  datatype Stop = At(c: char) | AtOrNewline(c: char) | PastRunOf(c: char) | PastSpace

  predicate Stops(k: Stop, x: char) {
    match k
    case At(c) => x == c
    case AtOrNewline(c) => x == c || x == '\n'
    case PastRunOf(c) => x != c
    case PastSpace => !IsJsSpace(x)
  }

  /** The first index at or after i whose character stops the scan, or |s| when there is none. */
  function Seek(s: string, i: nat, stop: Stop): (j: nat)
    requires i <= |s|
    ensures i <= j <= |s|
    ensures j < |s| ==> Stops(stop, s[j])
    ensures forall k :: i <= k < j ==> !Stops(stop, s[k])
    decreases |s| - i
  {
    if i == |s| || Stops(stop, s[i]) then i else Seek(s, i + 1, stop)
  }

  /** The first index at or after i where a ``` fence starts. */
  function SeekFence(s: string, i: nat): (j: Option<nat>)
    requires i <= |s|
    ensures j.Some? ==> i <= j.value && j.value + 3 <= |s| && s[j.value..j.value + 3] == "```"
    decreases |s| - i
  {
    if i + 3 > |s| then None
    else if s[i..i + 3] == "```" then Some(i)
    else SeekFence(s, i + 1)
  }

  /** JavaScript's line terminators, after which `^` matches in multiline mode. */
  predicate IsLineTerminator(c: char) { c == '\n' || c == '\r' || c as int == 0x2028 || c as int == 0x2029 }

  // ---------------------------------------------------------------- sanitising

  /** A match of s[i..i + len], to be replaced by s[i + keepFrom..i + keepTo]. */
  datatype Cut = Cut(len: nat, keepFrom: nat, keepTo: nat)

  predicate FitsAt(m: Option<Cut>, s: string, i: nat) {
    m.Some? ==> 1 <= m.value.len && i + m.value.len <= |s| && m.value.keepFrom <= m.value.keepTo <= m.value.len
  }

  /** The replacements of sanitizeContent, in the order it applies them. */
  datatype Pass = Fences | InlineCode | Links | Headings | Strike | Emphasis | Underscore

  /** /```[\s\S]*?```/: from a fence to the next one, replaced by nothing. */
  function FenceAt(s: string, i: nat): (m: Option<Cut>)
    requires i < |s|
    ensures FitsAt(m, s, i)
    ensures m.Some? ==> 6 <= m.value.len <= |s| - i && s[i..i + 3] == "```"
                        && s[i + m.value.len - 3..i + m.value.len] == "```" && m.value.keepFrom == m.value.keepTo
  {
    if i + 3 <= |s| && s[i..i + 3] == "```" then
      match SeekFence(s, i + 3)
      case Some(j) => Some(Cut(j + 3 - i, 0, 0))
      case None => None
    else None
  }

  /** d([^X]+)d with d in X: the text up to the first character of X, when that is d and not next to the opening d. */
  function Wrapped(s: string, i: nat, d: char, stop: Stop): (m: Option<Cut>)
    requires i < |s|
    ensures FitsAt(m, s, i)
    ensures m.Some? ==> s[i] == d && s[i + m.value.len - 1] == d && m.value.keepFrom == 1
                        && m.value.keepTo == m.value.len - 1 && m.value.len >= 3
                        && forall k :: i + 1 <= k < i + m.value.len - 1 ==> !Stops(stop, s[k])
  {
    if s[i] != d then None
    else
      var j := Seek(s, i + 1, stop);
      if j < |s| && s[j] == d && j >= i + 2 then Some(Cut(j - i + 1, 1, j - i)) else None
  }

  /** /\[([^\]]+)\]\([^\)]+\)/: a link, replaced by its text. */
  function LinkAt(s: string, i: nat): (m: Option<Cut>)
    requires i < |s|
    ensures FitsAt(m, s, i)
  {
    if s[i] != '[' then None
    else
      var j := Seek(s, i + 1, At(']'));
      if j >= i + 2 && j + 1 < |s| && s[j + 1] == '(' then
        var k := Seek(s, j + 2, At(')'));
        if k < |s| && k >= j + 3 then Some(Cut(k + 1 - i, 1, j - i)) else None
      else None
  }

  /** /^#{1,6}\s+/m: one to six '#' at a line start and the whitespace after them, replaced by nothing. */
  function HeadingAt(s: string, i: nat): (m: Option<Cut>)
    requires i < |s|
    ensures FitsAt(m, s, i)
    ensures m.Some? ==> (i == 0 || IsLineTerminator(s[i - 1])) && s[i] == '#' && m.value.keepFrom == m.value.keepTo
  {
    if !(i == 0 || IsLineTerminator(s[i - 1])) || s[i] != '#' then None
    else
      var h := Seek(s, i, PastRunOf('#'));
      if h - i <= 6 && h < |s| && IsJsSpace(s[h]) then
        var w := Seek(s, h, PastSpace);
        Some(Cut(w - i, 0, 0))
      else None
  }

  /** /~~([^~]+)~~/: struck-through text, replaced by the text. */
  function StrikeAt(s: string, i: nat): (m: Option<Cut>)
    requires i < |s|
    ensures FitsAt(m, s, i)
  {
    if i + 2 <= |s| && s[i..i + 2] == "~~" then
      var j := Seek(s, i + 2, At('~'));
      if j >= i + 3 && j + 1 < |s| && s[j + 1] == '~' then Some(Cut(j + 2 - i, 2, j - i)) else None
    else None
  }

  function MatchAt(p: Pass, s: string, i: nat): (m: Option<Cut>)
    requires i < |s|
    ensures FitsAt(m, s, i)
  {
    match p
    case Fences => FenceAt(s, i)
    case InlineCode => Wrapped(s, i, '`', At('`'))
    case Links => LinkAt(s, i)
    case Headings => HeadingAt(s, i)
    case Strike => StrikeAt(s, i)
    case Emphasis => Wrapped(s, i, '*', AtOrNewline('*'))
    case Underscore => Wrapped(s, i, '_', AtOrNewline('_'))
  }

  /** Where the pattern matches, at every index of s. */
  function Matches(p: Pass, s: string): (ms: seq<Option<Cut>>)
    ensures |ms| == |s| && AllFit(ms, s)
  {
    seq(|s|, i requires 0 <= i < |s| => MatchAt(p, s, i))
  }

  predicate AllFit(ms: seq<Option<Cut>>, s: string) {
    |ms| == |s| && forall k :: 0 <= k < |ms| ==> FitsAt(ms[k], s, k)
  }

  /**
   * A global replace from index i, given where the pattern matches: each
   * match, leftmost first, becomes its kept part, and the scan resumes
   * after it.
   */
  function ReplaceFrom(ms: seq<Option<Cut>>, s: string, i: nat): string
    requires i <= |s| && AllFit(ms, s)
    decreases |s| - i
  {
    if i == |s| then []
    else if ms[i].Some? then s[i + ms[i].value.keepFrom..i + ms[i].value.keepTo] + ReplaceFrom(ms, s, i + ms[i].value.len)
    else [s[i]] + ReplaceFrom(ms, s, i + 1)
  }

  function Replace(p: Pass, s: string): string { ReplaceFrom(Matches(p, s), s, 0) }

  /** A replacement pass only deletes characters: what is left appears in the input, in order. */
  lemma {:induction false} ReplaceFromDeletes(ms: seq<Option<Cut>>, s: string, i: nat)
    requires i <= |s| && AllFit(ms, s)
    ensures IsSubsequence(ReplaceFrom(ms, s, i), s[i..])
    decreases |s| - i
  {
    if i < |s| {
      if ms[i].Some? {
        ReplaceFromDeletes(ms, s, i + ms[i].value.len);
        DeletesAtMatch(ms, s, i, ms[i].value);
      } else {
        ReplaceFromDeletes(ms, s, i + 1);
        DeletesAtPlain(ms, s, i);
      }
    }
  }

  lemma DeletesAtMatch(ms: seq<Option<Cut>>, s: string, i: nat, c: Cut)
    requires i < |s| && AllFit(ms, s) && ms[i] == Some(c)
    requires IsSubsequence(ReplaceFrom(ms, s, i + c.len), s[i + c.len..])
    ensures IsSubsequence(ReplaceFrom(ms, s, i), s[i..])
  {
    ReplaceAtMatch(ms, s, i, c);
    KeptIsSubsequence(s, i, c);
    SliceSplit(s, i, i + c.len);
    SubsequenceGlue(ReplaceFrom(ms, s, i), s[i + c.keepFrom..i + c.keepTo], ReplaceFrom(ms, s, i + c.len),
                    s[i..i + c.len], s[i + c.len..], s[i..]);
  }

  lemma SliceSplit(s: string, i: nat, j: nat)
    requires i <= j <= |s|
    ensures s[i..] == s[i..j] + s[j..]
  {}

  lemma ReplaceAtMatch(ms: seq<Option<Cut>>, s: string, i: nat, c: Cut)
    requires i < |s| && AllFit(ms, s) && ms[i] == Some(c)
    ensures i + c.len <= |s| && c.keepFrom <= c.keepTo <= c.len
    ensures ReplaceFrom(ms, s, i) == s[i + c.keepFrom..i + c.keepTo] + ReplaceFrom(ms, s, i + c.len)
  {}

  lemma DeletesAtPlain(ms: seq<Option<Cut>>, s: string, i: nat)
    requires i < |s| && AllFit(ms, s) && ms[i].None?
    requires IsSubsequence(ReplaceFrom(ms, s, i + 1), s[i + 1..])
    ensures IsSubsequence(ReplaceFrom(ms, s, i), s[i..])
  {
    var rest := ReplaceFrom(ms, s, i + 1);
    assert ReplaceFrom(ms, s, i) == [s[i]] + rest;
    SubsequenceSelf([s[i]]);
    SubsequenceOfSplit([s[i]], rest, [s[i]], s[i + 1..], s[i..]);
  }

  lemma SubsequenceGlue(r: string, a: string, b: string, x: string, y: string, whole: string)
    requires r == a + b && whole == x + y && IsSubsequence(a, x) && IsSubsequence(b, y)
    ensures IsSubsequence(r, whole)
  {
    SubsequenceConcat(a, x, b, y);
  }

  lemma SubsequenceOfSplit(a: string, b: string, x: string, y: string, whole: string)
    requires IsSubsequence(a, x) && IsSubsequence(b, y) && whole == x + y
    ensures IsSubsequence(a + b, whole)
  {
    SubsequenceConcat(a, x, b, y);
  }

  lemma KeptIsSubsequence(s: string, i: nat, c: Cut)
    requires i + c.len <= |s| && c.keepFrom <= c.keepTo <= c.len
    ensures IsSubsequence(s[i + c.keepFrom..i + c.keepTo], s[i..i + c.len])
  {
    var whole := s[i..i + c.len];
    InfixIsSubsequence(whole, c.keepFrom, c.keepTo);
    var kept := whole[c.keepFrom..c.keepTo];
    forall k | 0 <= k < |kept|
      ensures kept[k] == s[i + c.keepFrom + k]
    {
      assert kept[k] == whole[c.keepFrom + k];
    }
    assert kept == s[i + c.keepFrom..i + c.keepTo];
  }

  lemma SubsequenceSelf(x: string)
    ensures IsSubsequence(x, x)
  {
    InfixIsSubsequence(x, 0, |x|);
    assert x[0..|x|] == x;
  }

  /** A pass that matches nowhere leaves the text as it was. */
  lemma {:induction false} ReplaceFromUntouched(ms: seq<Option<Cut>>, s: string, i: nat)
    requires i <= |s| && AllFit(ms, s)
    requires forall k :: i <= k < |s| ==> ms[k].None?
    ensures ReplaceFrom(ms, s, i) == s[i..]
    decreases |s| - i
  {
    if i < |s| {
      ReplaceFromUntouched(ms, s, i + 1);
      assert [s[i]] + s[i + 1..] == s[i..];
    }
  }

  /** sanitizeContent: the seven replacements in source order; empty text stays empty. */
  function Sanitize(text: string): string {
    if text == [] then []
    else
      var noFences := Replace(Fences, text);
      var noCode := Replace(InlineCode, noFences);
      var noLinks := Replace(Links, noCode);
      var noHeadings := Replace(Headings, noLinks);
      var noStrike := Replace(Strike, noHeadings);
      var noStars := Replace(Emphasis, noStrike);
      Replace(Underscore, noStars)
  }

  /** Sanitising never adds or reorders characters: it only deletes markup (and whole fenced blocks). */
  lemma SanitizeDeletes(text: string)
    ensures IsSubsequence(Sanitize(text), text)
    ensures |Sanitize(text)| <= |text|
  {
    if text != [] {
      var t0 := text;
      var t1 := Replace(Fences, t0);
      var t2 := Replace(InlineCode, t1);
      var t3 := Replace(Links, t2);
      var t4 := Replace(Headings, t3);
      var t5 := Replace(Strike, t4);
      var t6 := Replace(Emphasis, t5);
      var t7 := Replace(Underscore, t6);
      ReplaceFromDeletes(Matches(Fences, t0), t0, 0); assert t0[0..] == t0;
      ReplaceFromDeletes(Matches(InlineCode, t1), t1, 0); assert t1[0..] == t1;
      ReplaceFromDeletes(Matches(Links, t2), t2, 0); assert t2[0..] == t2;
      ReplaceFromDeletes(Matches(Headings, t3), t3, 0); assert t3[0..] == t3;
      ReplaceFromDeletes(Matches(Strike, t4), t4, 0); assert t4[0..] == t4;
      ReplaceFromDeletes(Matches(Emphasis, t5), t5, 0); assert t5[0..] == t5;
      ReplaceFromDeletes(Matches(Underscore, t6), t6, 0); assert t6[0..] == t6;
      SubsequenceTransitive(t2, t1, t0);
      SubsequenceTransitive(t3, t2, t0);
      SubsequenceTransitive(t4, t3, t0);
      SubsequenceTransitive(t5, t4, t0);
      SubsequenceTransitive(t6, t5, t0);
      SubsequenceTransitive(t7, t6, t0);
      SubsequenceLength(t7, t0);
    }
  }

  lemma {:induction false} SubsequenceLength(r: string, s: string)
    requires IsSubsequence(r, s)
    ensures |r| <= |s|
    decreases |s|
  {
    if r != [] {
      if r[0] == s[0] {
        SubsequenceLength(r[1..], s[1..]);
      } else {
        SubsequenceLength(r, s[1..]);
      }
    }
  }

  // ---------------------------------------------------------------- paragraphs

  /** s without its leading newlines. */
  function DropNewlines(s: string): (r: string)
    ensures |r| <= |s| && r == s[|s| - |r|..]
    ensures r == [] || r[0] != '\n'
    ensures forall k :: 0 <= k < |s| - |r| ==> s[k] == '\n'
    decreases |s|
  {
    if s != [] && s[0] == '\n' then DropNewlines(s[1..]) else s
  }

  predicate SeparatorAt(s: string, k: int) { 0 <= k && k + 1 < |s| && s[k] == '\n' && s[k + 1] == '\n' }

  /** No two newlines in a row. */
  predicate NoBlankLine(s: string) { forall k :: 0 <= k < |s| ==> !SeparatorAt(s, k) }

  /**
   * s.split(/\n\n+/): the pieces between maximal runs of two or more
   * newlines (a leftmost, greedy match always takes the whole run). The
   * first piece is a prefix of s.
   */
  function Paragraphs(s: string): (r: seq<string>)
    ensures |r| >= 1
    ensures |r[0]| <= |s| && r[0] == s[..|r[0]|]
    decreases |s|
  {
    if s == [] then [[]]
    else if SeparatorAt(s, 0) then [[]] + Paragraphs(DropNewlines(s))
    else
      var rest := Paragraphs(s[1..]);
      [[s[0]] + rest[0]] + rest[1..]
  }

  /** No piece contains a blank line. */
  lemma {:induction false} ParagraphsHaveNoBlankLine(s: string)
    ensures forall k :: 0 <= k < |Paragraphs(s)| ==> NoBlankLine(Paragraphs(s)[k])
    decreases |s|
  {
    if s != [] {
      if SeparatorAt(s, 0) {
        ParagraphsHaveNoBlankLine(DropNewlines(s));
      } else {
        ParagraphsHaveNoBlankLine(s[1..]);
        var rest := Paragraphs(s[1..]);
        var first := [s[0]] + rest[0];
        forall k | 0 <= k < |first|
          ensures !SeparatorAt(first, k)
        {
          if k == 0 && |first| > 1 {
            assert first[1] == rest[0][0] == s[1];
          } else if k > 0 {
            assert first[k] == rest[0][k - 1];
            assert !SeparatorAt(rest[0], k - 1);
          }
        }
      }
    }
  }

  /** The text of the pieces joined together, in order. */
  function Concat(ps: seq<string>): string
    decreases |ps|
  {
    if ps == [] then [] else ps[0] + Concat(ps[1..])
  }

  predicate NotNewline(c: char) { c != '\n' }

  lemma {:induction false} FilterAppend(a: string, b: string, keep: char -> bool)
    ensures Filter(a + b, keep) == Filter(a, keep) + Filter(b, keep)
    decreases |a|
  {
    if a != [] {
      assert (a + b)[1..] == a[1..] + b;
      FilterAppend(a[1..], b, keep);
    } else {
      assert a + b == b;
    }
  }

  lemma {:induction false} FilterDropsNewlines(s: string)
    ensures Filter(DropNewlines(s), NotNewline) == Filter(s, NotNewline)
    decreases |s|
  {
    if s != [] && s[0] == '\n' {
      FilterDropsNewlines(s[1..]);
    }
  }

  /** Splitting drops only newlines: every other character is kept, in order. */
  lemma {:induction false} ParagraphsKeepText(s: string)
    ensures Filter(Concat(Paragraphs(s)), NotNewline) == Filter(s, NotNewline)
    decreases |s|
  {
    if s == [] {
      assert Concat(Paragraphs(s)) == [];
    } else {
      if SeparatorAt(s, 0) {
        ParagraphsKeepText(DropNewlines(s));
        KeepTextAtSeparator(s);
      } else {
        ParagraphsKeepText(s[1..]);
        KeepTextAtChar(s);
      }
    }
  }

  lemma KeepTextAtSeparator(s: string)
    requires SeparatorAt(s, 0)
    requires Filter(Concat(Paragraphs(DropNewlines(s))), NotNewline) == Filter(DropNewlines(s), NotNewline)
    ensures Filter(Concat(Paragraphs(s)), NotNewline) == Filter(s, NotNewline)
  {
    var d := DropNewlines(s);
    FilterDropsNewlines(s);
    var r := Paragraphs(s);
    assert r == [[]] + Paragraphs(d);
    assert r[0] == [] && r[1..] == Paragraphs(d);
    ConcatCons(r);
    assert Concat(r) == Concat(Paragraphs(d));
  }

  lemma KeepTextAtChar(s: string)
    requires s != [] && !SeparatorAt(s, 0)
    requires Filter(Concat(Paragraphs(s[1..])), NotNewline) == Filter(s[1..], NotNewline)
    ensures Filter(Concat(Paragraphs(s)), NotNewline) == Filter(s, NotNewline)
  {
    ConcatFirstChar(s);
    FilterAppend([s[0]], Concat(Paragraphs(s[1..])), NotNewline);
    assert [s[0]] + s[1..] == s;
    FilterAppend([s[0]], s[1..], NotNewline);
  }

  /** Outside a separator, the first character joins the first piece of the rest. */
  lemma ConcatFirstChar(s: string)
    requires s != [] && !SeparatorAt(s, 0)
    ensures Concat(Paragraphs(s)) == [s[0]] + Concat(Paragraphs(s[1..]))
  {
    var rest := Paragraphs(s[1..]);
    var r := Paragraphs(s);
    assert r == [[s[0]] + rest[0]] + rest[1..];
    assert r[0] == [s[0]] + rest[0] && r[1..] == rest[1..];
    ConcatCons(rest);
    ConcatCons(r);
    SeqAssoc([s[0]], rest[0], Concat(rest[1..]));
  }

  lemma ConcatCons(ps: seq<string>)
    requires ps != []
    ensures Concat(ps) == ps[0] + Concat(ps[1..])
  {}

  /** A text without a blank line is a single piece, itself. */
  lemma {:induction false} ParagraphsSingle(s: string)
    requires NoBlankLine(s)
    ensures Paragraphs(s) == [s]
    decreases |s|
  {
    if s != [] {
      assert !SeparatorAt(s, 0);
      assert NoBlankLine(s[1..]) by {
        forall k | 0 <= k < |s[1..]| ensures !SeparatorAt(s[1..], k) {
          assert !SeparatorAt(s, k + 1);
        }
      }
      ParagraphsSingle(s[1..]);
      assert [s[0]] + s[1..] == s;
    }
  }

  // ---------------------------------------------------------------- classification

  predicate IsBullet(c: char) { c == '-' || c == '*' || c == '•' }

  /** /^[-*•]\s/ */
  predicate BulletStart(t: string) { |t| >= 2 && IsBullet(t[0]) && IsJsSpace(t[1]) }

  /** The length of the run of ASCII digits that starts t. */
  function DigitRun(t: string): (n: nat)
    ensures n <= |t|
    ensures forall k :: 0 <= k < n ==> IsDigit(t[k])
    ensures n == |t| || !IsDigit(t[n])
    decreases |t|
  {
    if t != [] && IsDigit(t[0]) then 1 + DigitRun(t[1..]) else 0
  }

  /** /^\d+\.\s/ (greedy \d+ cannot give back a digit to match the '.'). */
  predicate NumberStart(t: string) {
    var n := DigitRun(t);
    n >= 1 && n + 1 < |t| && t[n] == '.' && IsJsSpace(t[n + 1])
  }

  predicate IsListStart(t: string) { BulletStart(t) || NumberStart(t) }

  function StripBullet(t: string): string { if BulletStart(t) then t[2..] else t }

  function StripNumber(t: string): string { if NumberStart(t) then t[DigitRun(t) + 2..] else t }

  /** item.replace(/^[-*•]\s/, '').replace(/^\d+\.\s/, ''): at most one bullet, then at most one number marker. */
  function CleanItem(item: string): (r: string)
    ensures |r| <= |item| && r == item[|item| - |r|..]
    ensures !IsListStart(item) ==> r == item
    ensures item != [] && !IsJsSpace(item[|item| - 1]) ==> r != []
  {
    StripNumber(StripBullet(item))
  }

  /** Only one bullet is removed: "- - a" keeps its second bullet. */
  lemma CleanItemOneBullet()
    ensures CleanItem("- - a") == "- a"
  {
    assert BulletStart("- - a");
    assert "- - a"[2..] == "- a";
    assert DigitRun("- a") == 0;
  }

  /** The lines of a paragraph, each trimmed. */
  function TrimLines(trimmed: string): (r: seq<string>)
    ensures |r| == |Split(trimmed, '\n')|
    ensures forall i :: 0 <= i < |r| ==> r[i] == JsTrim(Split(trimmed, '\n')[i])
  {
    var lines := Split(trimmed, '\n');
    seq(|lines|, i requires 0 <= i < |lines| => JsTrim(lines[i]))
  }

  predicate NonEmpty(s: string) { s != [] }

  /** The trimmed, non-empty lines end in a character that is not whitespace. */
  lemma KeptLinesEnd(trimmed: string, k: nat)
    requires k < |L.Keep(TrimLines(trimmed), NonEmpty)|
    ensures var line := L.Keep(TrimLines(trimmed), NonEmpty)[k];
            line != [] && !IsJsSpace(line[|line| - 1])
  {
    L.KeepElement(TrimLines(trimmed), NonEmpty, k);
    var lines := TrimLines(trimmed);
    var i :| 0 <= i < |lines| && lines[i] == L.Keep(lines, NonEmpty)[k];
    TrimEndClean(Split(trimmed, '\n')[i], IsJsSpace);
  }

  /** trimmed.split(/\n/).map(trim).filter(Boolean).map(clean): the list items of a list paragraph. */
  function ListItems(trimmed: string): (items: seq<string>)
  {
    var kept := L.Keep(TrimLines(trimmed), NonEmpty);
    seq(|kept|, i requires 0 <= i < |kept| => CleanItem(kept[i]))
  }

  /** No list item is empty: a marker is only stripped when something that is not whitespace follows it. */
  lemma ListItemsNonEmpty(trimmed: string)
    ensures forall k :: 0 <= k < |ListItems(trimmed)| ==> ListItems(trimmed)[k] != []
  {
    forall k | 0 <= k < |ListItems(trimmed)|
      ensures ListItems(trimmed)[k] != []
    {
      KeptLinesEnd(trimmed, k);
    }
  }

  /** What a paragraph renders as: a bulleted list, a heading (web only) or lines separated by line breaks. */
  datatype Block = ListBlock(items: seq<string>) | Heading(text: string) | Paragraph(lines: seq<string>)

  // ---------------------------------------------------------------- the native client

  /** A native paragraph: a list when its trimmed text starts with a marker, otherwise its lines. */
  function NativeBlock(paragraph: string): (b: Block)
    ensures b.ListBlock? <==> IsListStart(JsTrim(paragraph))
    ensures !b.Heading?
  {
    var trimmed := JsTrim(paragraph);
    if IsListStart(trimmed) then ListBlock(ListItems(trimmed)) else Paragraph(Split(trimmed, '\n'))
  }

  /** The non-blank paragraphs of the sanitised text, in order. */
  function NativeParagraphs(content: string): (ps: seq<string>)
    ensures forall k :: 0 <= k < |ps| ==> JsTrim(ps[k]) != []
  {
    L.Keep(Paragraphs(Sanitize(content)), TrimsToText)
  }

  /** formatMessage: nothing for text that is blank once sanitised, otherwise one block per non-blank paragraph. */
  function FormatNative(content: string): (blocks: seq<Block>)
    ensures JsTrim(Sanitize(content)) == [] ==> blocks == []
    ensures JsTrim(Sanitize(content)) != [] ==> |blocks| == |NativeParagraphs(content)|
  {
    if JsTrim(Sanitize(content)) == [] then []
    else
      var ps := NativeParagraphs(content);
      seq(|ps|, i requires 0 <= i < |ps| => NativeBlock(ps[i]))
  }

  /** Every character of a filtered text comes from the text. */
  lemma {:induction false} FilterMember(s: string, keep: char -> bool, c: char)
    requires c in Filter(s, keep)
    ensures c in s
    decreases |s|
  {
    if s[0] != c {
      FilterMember(s[1..], keep, c);
    }
  }

  lemma {:induction false} FilterKeeps(s: string, keep: char -> bool, k: nat)
    requires k < |s| && keep(s[k])
    ensures s[k] in Filter(s, keep)
    decreases |s|
  {
    if k > 0 {
      FilterKeeps(s[1..], keep, k - 1);
    }
  }

  /** A character of the joined pieces lies in one of them. */
  lemma {:induction false} ConcatMember(ps: seq<string>, c: char) returns (j: nat)
    requires c in Concat(ps)
    ensures j < |ps| && c in ps[j]
    decreases |ps|
  {
    if c in ps[0] {
      j := 0;
    } else {
      var j1 := ConcatMember(ps[1..], c);
      j := j1 + 1;
    }
  }

  /** The native client renders nothing exactly when the sanitised text is blank. */
  lemma NativeEmptyIffBlank(content: string)
    ensures FormatNative(content) == [] <==> JsBlank(Sanitize(content))
  {
    var t := Sanitize(content);
    JsBlankIff(t);
    if !JsBlank(t) {
      var k :| 0 <= k < |t| && !IsJsSpace(t[k]);
      var c := t[k];
      FilterKeeps(t, NotNewline, k);
      ParagraphsKeepText(t);
      FilterMember(Concat(Paragraphs(t)), NotNewline, c);
      var j := ConcatMember(Paragraphs(t), c);
      var piece := Paragraphs(t)[j];
      JsBlankIff(piece);
      L.KeepCounts(Paragraphs(t), TrimsToText, piece);
      assert piece in multiset(Paragraphs(t));
      assert NativeParagraphs(content) != [];
    }
  }

  // ---------------------------------------------------------------- the web client

  /**
   * A web paragraph, classified in order: a list first, then a heading (a
   * non-empty trimmed text under 100 UTF-16 units without a '.'), otherwise
   * its lines.
   */
  function WebBlock(paragraph: string): (b: Block)
    ensures b.ListBlock? <==> IsListStart(JsTrim(paragraph))
    ensures b.Heading? <==> !IsListStart(JsTrim(paragraph)) && 0 < JsLength(JsTrim(paragraph)) < 100 && '.' !in JsTrim(paragraph)
    ensures b.Heading? ==> b.text == JsTrim(paragraph)
  {
    var trimmed := JsTrim(paragraph);
    if IsListStart(trimmed) then ListBlock(ListItems(trimmed))
    else if JsLength(trimmed) < 100 && '.' !in trimmed && JsLength(trimmed) > 0 then Heading(trimmed)
    else Paragraph(Split(trimmed, '\n'))
  }

  /** The web formatMessage returns an empty string for missing or empty content, otherwise one block per piece. */
  datatype WebRendered = NoContent | Blocks(blocks: seq<Block>)

  function FormatWeb(content: Option<string>): (r: WebRendered)
    ensures r.NoContent? <==> content.None? || content.value == []
    ensures r.Blocks? ==> |r.blocks| == |Paragraphs(content.value)|
  {
    if content.None? || content.value == [] then NoContent
    else
      var ps := Paragraphs(content.value);
      Blocks(seq(|ps|, i requires 0 <= i < |ps| => WebBlock(ps[i])))
  }

  /** A blank paragraph is neither a list nor a heading: it renders as one empty line. */
  lemma WebBlankParagraph(paragraph: string)
    requires JsBlank(paragraph)
    ensures WebBlock(paragraph) == Paragraph([[]])
  {
    JsBlankIff(paragraph);
  }

  /** The clients agree on lists; the web heading is the one block the native client renders as plain lines. */
  lemma ClientsAgreeOutsideHeadings(paragraph: string)
    ensures NativeBlock(paragraph).ListBlock? <==> WebBlock(paragraph).ListBlock?
    ensures !WebBlock(paragraph).Heading? ==> NativeBlock(paragraph) == WebBlock(paragraph)
    ensures WebBlock(paragraph).Heading? ==> NativeBlock(paragraph) == Paragraph(Split(WebBlock(paragraph).text, '\n'))
  {}

  // ---------------------------------------------------------------- emphasis

  /** A scan stops at the first character that stops it. */
  lemma SeekAt(s: string, i: nat, stop: Stop, j: nat)
    requires i <= j <= |s|
    requires forall k :: i <= k < j ==> !Stops(stop, s[k])
    requires j == |s| || Stops(stop, s[j])
    ensures Seek(s, i, stop) == j
  {}

  /** *x* becomes x when x has neither '*' nor a newline. */
  lemma EmphasisUnwraps(w: string)
    requires w != [] && '*' !in w && '\n' !in w
    ensures Replace(Emphasis, "*" + w + "*") == w
  {
    var s := "*" + w + "*";
    var n := |w|;
    var ms := Matches(Emphasis, s);
    forall k | 1 <= k < n + 1 ensures !Stops(AtOrNewline('*'), s[k]) {
      assert s[k] == w[k - 1];
    }
    SeekAt(s, 1, AtOrNewline('*'), n + 1);
    assert ms[0] == Some(Cut(n + 2, 1, n + 1));
    assert s[1..n + 1] == w;
    assert ReplaceFrom(ms, s, n + 2) == [];
  }

  /** Bold text keeps one pair of stars: the single-star pattern matches inside **x**. */
  lemma BoldKeepsOneStarPair(w: string)
    requires w != [] && '*' !in w && '\n' !in w
    ensures Replace(Emphasis, "**" + w + "**") == "*" + w + "*"
  {
    var s := "**" + w + "**";
    var n := |w|;
    var ms := Matches(Emphasis, s);
    forall k | 2 <= k < n + 2 ensures !Stops(AtOrNewline('*'), s[k]) {
      assert s[k] == w[k - 2];
    }
    SeekAt(s, 1, AtOrNewline('*'), 1);
    assert ms[0] == None;
    SeekAt(s, 2, AtOrNewline('*'), n + 2);
    assert ms[1] == Some(Cut(n + 2, 1, n + 1));
    SeekAt(s, n + 4, AtOrNewline('*'), n + 4);
    assert ms[n + 3] == None;
    assert s[2..n + 2] == w;
    assert ReplaceFrom(ms, s, n + 4) == [];
    assert ReplaceFrom(ms, s, n + 3) == "*";
    assert ReplaceFrom(ms, s, 1) == w + "*";
  }
}
