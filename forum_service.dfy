/**
 * The mobile client's forum service (baby-sleep-native-fixed/src/services/forumService.ts):
 * the URL of an uploaded file, the optional username query of the channel
 * and post listings, the request headers, and how a post listing that the
 * server answers with 404 becomes an empty list.
 *
 * API_BASE_URL depends on the platform and the build; it is a parameter.
 * The stored token and the server's answer are parameters too.
 */
module ForumService {
  import opened Wrappers
  import opened Text

  // ---------------------------------------------------------------- getFileUrl

  /** filename.split('/').pop(): the text after the last '/'; split never gives an empty list. */
  function FileName(path: string): (r: string)
    ensures '/' !in r
  {
    SplitJoin(path, '/');
    Last(Split(path, '/'))
  }

  /** getFileUrl: the file name, appended to the files route. */
  function FileUrl(base: string, path: string): (r: string)
    ensures StartsWith(r, base + "/forum/files/")
    ensures '/' !in r[|base| + 13..]
  {
    var prefix := base + "/forum/files/";
    var r := prefix + FileName(path);
    assert r[..|prefix|] == prefix;
    assert r[|prefix|..] == FileName(path);
    r
  }

  /** A name without '/' is kept whole. */
  lemma FileNameOfPlainName(name: string)
    requires '/' !in name
    ensures FileName(name) == name
  {
    NoSeparatorSingle(name, '/');
  }

  /** Only what follows the last '/' counts: any directory in front of a plain name is dropped. */
  lemma FileNameDropsDirectory(base: string, dir: string, name: string)
    requires '/' !in name
    ensures FileName(dir + "/" + name) == name
    ensures FileUrl(base, dir + "/" + name) == FileUrl(base, name)
  {
    SplitAppend(dir + "/", name, '/');
    SplitEndingInSeparator(dir, '/');
    assert Last(Split(dir + "/", '/')) + name == name;
    NoSeparatorSingle(name, '/');
    FileNameOfPlainName(name);
  }

  /** A path ending in '/' names no file: the URL ends with the files route itself. */
  lemma TrailingSlashNamesNothing(base: string, dir: string)
    ensures FileName(dir + "/") == []
    ensures FileUrl(base, dir + "/") == base + "/forum/files/"
  {
    SplitEndingInSeparator(dir, '/');
  }

  // ---------------------------------------------------------------- encodeURIComponent

  /** The characters encodeURIComponent leaves as they are. */
  predicate IsUnreserved(c: char) {
    IsLetter(c) || IsDigit(c) || c == '-' || c == '_' || c == '.' || c == '!' || c == '~'
    || c == '*' || c == '\'' || c == '(' || c == ')'
  }

  /** An upper-case hexadecimal digit. */
  function HexDigit(d: nat): (c: char)
    requires d < 16
    ensures IsUnreserved(c)
  {
    if d < 10 then ('0' as int + d) as char else ('A' as int + d - 10) as char
  }

  /** The UTF-8 bytes of a character. */
  function Utf8(c: char): (bs: seq<nat>)
    ensures 1 <= |bs| <= 4 && forall i :: 0 <= i < |bs| ==> bs[i] < 256
  {
    var n := c as int;
    if n < 0x80 then [n]
    else if n < 0x800 then [0xC0 + n / 64, 0x80 + n % 64]
    else if n < 0x10000 then [0xE0 + n / 4096, 0x80 + (n / 64) % 64, 0x80 + n % 64]
    else [0xF0 + n / 262144, 0x80 + (n / 4096) % 64, 0x80 + (n / 64) % 64, 0x80 + n % 64]
  }

  /** Each byte as %HH. */
  function Percent(bs: seq<nat>): (r: string)
    requires forall i :: 0 <= i < |bs| ==> bs[i] < 256
    ensures |r| == 3 * |bs|
    ensures forall i :: 0 <= i < |r| ==> IsUnreserved(r[i]) || r[i] == '%'
    decreases |bs|
  {
    if bs == [] then []
    else ['%', HexDigit(bs[0] / 16), HexDigit(bs[0] % 16)] + Percent(bs[1..])
  }

  function EncodeChar(c: char): (r: string)
    ensures r != []
    ensures forall i :: 0 <= i < |r| ==> IsUnreserved(r[i]) || r[i] == '%'
  {
    if IsUnreserved(c) then [c] else Percent(Utf8(c))
  }

  /**
   * encodeURIComponent: the result holds only unreserved characters and
   * '%', so it cannot end the query value or start another one.
   */
  function EncodeURIComponent(s: string): (r: string)
    ensures |r| >= |s|
    ensures forall i :: 0 <= i < |r| ==> IsUnreserved(r[i]) || r[i] == '%'
    decreases |s|
  {
    if s == [] then [] else EncodeChar(s[0]) + EncodeURIComponent(s[1..])
  }

  /** A text of unreserved characters is sent as it is. */
  lemma {:induction false} EncodeUnreservedUnchanged(s: string)
    requires forall i :: 0 <= i < |s| ==> IsUnreserved(s[i])
    ensures EncodeURIComponent(s) == s
    decreases |s|
  {
    if s != [] {
      EncodeUnreservedUnchanged(s[1..]);
    }
  }

  // ---------------------------------------------------------------- decoding, the inverse

  function HexValue(c: char): Option<nat> {
    if '0' <= c <= '9' then Some(c as int - '0' as int)
    else if 'A' <= c <= 'F' then Some(c as int - 'A' as int + 10)
    else if 'a' <= c <= 'f' then Some(c as int - 'a' as int + 10)
    else None
  }

  /** The byte written as %HH at the start of t, if there is one. */
  function LeadingByte(t: string): (r: Option<nat>)
    ensures r.Some? ==> r.value < 256
  {
    if 3 <= |t| && t[0] == '%' && HexValue(t[1]).Some? && HexValue(t[2]).Some?
       && HexValue(t[1]).value < 16 && HexValue(t[2]).value < 16
    then Some(HexValue(t[1]).value * 16 + HexValue(t[2]).value)
    else None
  }

  /** The first k %HH groups of t as bytes, if t starts with k of them. */
  function ReadBytes(t: string, k: nat): (r: Option<seq<nat>>)
    ensures r.Some? ==> |r.value| == k && 3 * k <= |t|
    decreases k
  {
    if k == 0 then Some([])
    else
      var b := LeadingByte(t);
      if b.None? then None
      else
        var more := ReadBytes(t[3..], k - 1);
        if more.None? then None else Some([b.value] + more.value)
  }

  /** How many bytes a UTF-8 sequence with this first byte has; 0 for a byte no sequence starts with. */
  function SequenceLength(b0: nat): nat {
    if b0 < 0x80 then 1
    else if 0xC0 <= b0 < 0xE0 then 2
    else if 0xE0 <= b0 < 0xF0 then 3
    else if 0xF0 <= b0 < 0xF8 then 4
    else 0
  }

  predicate IsContinuation(b: nat) { 0x80 <= b < 0xC0 }

  /** A code point that is a character (not a surrogate, not beyond U+10FFFF). */
  function AsChar(cp: int): Option<char> {
    if 0 <= cp < 0xD800 || 0xE000 <= cp < 0x110000 then Some(cp as char) else None
  }

  /** The character a UTF-8 sequence of one to four bytes stands for. */
  function Utf8Decode(bs: seq<nat>): Option<char> {
    if |bs| == 1 then AsChar(bs[0])
    else if |bs| == 2 && IsContinuation(bs[1]) then
      AsChar((bs[0] as int - 0xC0) * 64 + (bs[1] - 0x80))
    else if |bs| == 3 && IsContinuation(bs[1]) && IsContinuation(bs[2]) then
      AsChar((bs[0] as int - 0xE0) * 4096 + (bs[1] - 0x80) * 64 + (bs[2] - 0x80))
    else if |bs| == 4 && IsContinuation(bs[1]) && IsContinuation(bs[2]) && IsContinuation(bs[3]) then
      AsChar((bs[0] as int - 0xF0) * 262144 + (bs[1] - 0x80) * 4096 + (bs[2] - 0x80) * 64 + (bs[3] - 0x80))
    else None
  }

  /** One decoded character and the number of text characters it took. */
  datatype Unit = Unit(c: char, len: nat)

  function DecodeUnit(t: string): (r: Option<Unit>)
    requires t != []
    ensures r.Some? ==> 1 <= r.value.len <= |t|
  {
    if t[0] != '%' then Some(Unit(t[0], 1))
    else
      var b0 := LeadingByte(t);
      if b0.None? || SequenceLength(b0.value) == 0 then None
      else
        var k := SequenceLength(b0.value);
        var bs := ReadBytes(t, k);
        if bs.None? then None
        else
          var ch := Utf8Decode(bs.value);
          if ch.None? then None else Some(Unit(ch.value, 3 * k))
  }

  /** Percent-decoding with UTF-8, as the server reads the query value; None for a malformed text. */
  function DecodeURIComponent(t: string): Option<string>
    decreases |t|
  {
    if t == [] then Some([])
    else
      var u := DecodeUnit(t);
      if u.None? then None
      else
        var rest := DecodeURIComponent(t[u.value.len..]);
        if rest.None? then None else Some([u.value.c] + rest.value)
  }

  /** The bytes Percent writes are read back, whatever follows them. */
  lemma {:induction false} ReadPercent(bs: seq<nat>, rest: string)
    requires forall i :: 0 <= i < |bs| ==> bs[i] < 256
    ensures ReadBytes(Percent(bs) + rest, |bs|) == Some(bs)
    decreases |bs|
  {
    if bs != [] {
      var t := Percent(bs) + rest;
      var b := bs[0];
      assert t[0] == '%' && t[1] == HexDigit(b / 16) && t[2] == HexDigit(b % 16);
      assert HexValue(HexDigit(b / 16)) == Some(b / 16) && HexValue(HexDigit(b % 16)) == Some(b % 16);
      assert LeadingByte(t) == Some(b);
      assert t[3..] == Percent(bs[1..]) + rest;
      ReadPercent(bs[1..], rest);
      assert [b] + bs[1..] == bs;
    }
  }

  /** The first byte of a character's encoding announces the encoding's length. */
  lemma LeadAnnouncesLength(c: char)
    ensures SequenceLength(Utf8(c)[0]) == |Utf8(c)|
  {}

  lemma Utf8DecodeTwo(n: nat, c: char)
    requires 0x80 <= n < 0x800 && c as int == n
    ensures Utf8Decode([0xC0 + n / 64, 0x80 + n % 64]) == Some(c)
  {
    assert (n / 64) * 64 + n % 64 == n;
  }

  lemma Utf8DecodeThree(n: nat, c: char)
    requires 0x800 <= n < 0x10000 && c as int == n
    ensures Utf8Decode([0xE0 + n / 4096, 0x80 + (n / 64) % 64, 0x80 + n % 64]) == Some(c)
  {
    var hi, mid, lo := n / 4096, (n / 64) % 64, n % 64;
    assert n / 64 == hi * 64 + mid;
    assert hi * 4096 + mid * 64 + lo == n;
  }

  lemma Utf8DecodeFour(n: nat, c: char)
    requires 0x10000 <= n < 0x110000 && c as int == n
    ensures Utf8Decode([0xF0 + n / 262144, 0x80 + (n / 4096) % 64, 0x80 + (n / 64) % 64, 0x80 + n % 64]) == Some(c)
  {
    var top, hi, mid, lo := n / 262144, (n / 4096) % 64, (n / 64) % 64, n % 64;
    assert n / 64 == (n / 4096) * 64 + mid;
    assert n / 4096 == top * 64 + hi;
    assert top * 262144 + hi * 4096 + mid * 64 + lo == n;
  }

  /** UTF-8 decoding undoes UTF-8 encoding. */
  lemma Utf8RoundTrip(c: char)
    ensures Utf8Decode(Utf8(c)) == Some(c)
  {
    var n := c as int;
    if n < 0x80 {
    } else if n < 0x800 {
      Utf8DecodeTwo(n, c);
    } else if n < 0x10000 {
      Utf8DecodeThree(n, c);
    } else {
      Utf8DecodeFour(n, c);
    }
  }

  /** An encoded character followed by anything decodes back to that character, taking exactly its encoding. */
  lemma DecodeEncodedChar(c: char, rest: string)
    ensures DecodeUnit(EncodeChar(c) + rest) == Some(Unit(c, |EncodeChar(c)|))
  {
    if !IsUnreserved(c) {
      var bs := Utf8(c);
      var t := Percent(bs) + rest;
      ReadPercent(bs, rest);
      ReadPercent([bs[0]], Percent(bs[1..]) + rest);
      assert Percent(bs) == Percent([bs[0]]) + Percent(bs[1..]);
      assert LeadingByte(t) == Some(bs[0]);
      LeadAnnouncesLength(c);
      Utf8RoundTrip(c);
    }
  }

  /** One decoding step: a decoded character in front of the decoded remainder. */
  lemma DecodeCons(t: string, u: Unit, r: string)
    requires t != [] && DecodeUnit(t) == Some(u) && DecodeURIComponent(t[u.len..]) == Some(r)
    ensures DecodeURIComponent(t) == Some([u.c] + r)
  {}

  /** Decoding undoes encodeURIComponent: the server reads back exactly the username that was sent. */
  lemma {:induction false} EncodeDecode(s: string)
    ensures DecodeURIComponent(EncodeURIComponent(s)) == Some(s)
    decreases |s|
  {
    if s != [] {
      var e := EncodeChar(s[0]);
      var tail := EncodeURIComponent(s[1..]);
      var t := e + tail;
      assert t == EncodeURIComponent(s);
      DecodeEncodedChar(s[0], tail);
      assert t[|e|..] == tail;
      EncodeDecode(s[1..]);
      DecodeCons(t, Unit(s[0], |e|), s[1..]);
      assert [s[0]] + s[1..] == s;
    }
  }

  /** Two usernames with the same encoding are the same username. */
  lemma EncodeInjective(a: string, b: string)
    requires EncodeURIComponent(a) == EncodeURIComponent(b)
    ensures a == b
  {
    EncodeDecode(a);
    EncodeDecode(b);
  }

  // ---------------------------------------------------------------- listing URLs

  const UsernameQuery := "?username="

  /** `${path}?username=${encodeURIComponent(username)}` for a non-empty username, the bare path otherwise. */
  function WithUsername(path: string, username: string): string {
    if username == [] then path else path + UsernameQuery + EncodeURIComponent(username)
  }

  /** getChannels' URL. */
  function ChannelsUrl(base: string, username: string): string {
    WithUsername(base + "/forum/channels", username)
  }

  /** getPosts' URL; the channel id is written in decimal. */
  function PostsUrl(base: string, channelId: int, username: string): string {
    WithUsername(base + "/forum/channels/" + IntToString(channelId) + "/posts", username)
  }

  /**
   * The query is there exactly when the username is not empty, and its value
   * is made of unreserved characters and '%' and decodes to the username.
   */
  lemma UsernameQueryShape(path: string, username: string)
    ensures username == [] ==> WithUsername(path, username) == path
    ensures username != [] ==>
              var url := WithUsername(path, username);
              var value := url[|path| + |UsernameQuery|..];
              StartsWith(url, path + UsernameQuery)
              && (forall i :: 0 <= i < |value| ==> IsUnreserved(value[i]) || value[i] == '%')
              && DecodeURIComponent(value) == Some(username)
  {
    if username != [] {
      var url := WithUsername(path, username);
      assert url[..|path + UsernameQuery|] == path + UsernameQuery;
      assert url[|path| + |UsernameQuery|..] == EncodeURIComponent(username);
      EncodeDecode(username);
    }
  }

  // ---------------------------------------------------------------- getAuthHeaders

  datatype Header = ContentType | Authorization

  /** getAuthHeaders: always the JSON content type; a bearer token only when one is stored. */
  function AuthHeaders(token: Option<string>): (h: map<Header, string>)
    ensures ContentType in h && h[ContentType] == "application/json"
    ensures Authorization in h <==> token.Some? && token.value != []
    ensures Authorization in h ==> h[Authorization] == "Bearer " + token.value
  {
    var h := map[ContentType := "application/json"];
    if token.Some? && token.value != [] then h[Authorization := "Bearer " + token.value] else h
  }

  // ---------------------------------------------------------------- getPosts

  /** How the posts request went: a 2xx answer with its list, another status, or an error thrown on the way. */
  datatype PostsReply<T> = Listed(items: seq<T>) | NotOk(status: int) | Threw(message: string)

  /** What getPosts settles with. */
  datatype PostsResult<T> = Posts(items: seq<T>) | Failed(message: string)

  const MsgPostsFailed := "Failed to fetch posts"

  /**
   * getPosts: a 404 is an empty list, and so is an error whose message
   * mentions 404; every other failure becomes the one fixed message.
   */
  function GetPosts<T>(reply: PostsReply<T>): (r: PostsResult<T>)
    ensures reply.Listed? ==> r == Posts(reply.items)
    ensures reply.NotOk? ==> (r == Posts([]) <==> reply.status == 404)
    ensures reply.Threw? ==> (r == Posts([]) <==> Contains(reply.message, "404"))
    ensures r.Failed? ==> r.message == MsgPostsFailed
  {
    match reply
    case Listed(items) => Posts(items)
    case NotOk(status) => if status == 404 then Posts([]) else Failed(MsgPostsFailed)
    case Threw(m) => if Contains(m, "404") then Posts([]) else Failed(MsgPostsFailed)
  }
}
